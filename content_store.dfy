/**
 * The storage backend seen through its interface: for a template path or a
 * shared import name it returns text, returns `None`, or raises
 * TemplateNotFoundException. The backend is taken to be initialised.
 */
module ContentStore {
  import opened Outcomes

  /** One answer of the backend. */
  datatype Fetched = Text(text: string) | Absent | Raises

  /** Answers for template paths and for shared import names. A key that is
      not listed raises not-found, as the file-system backend does for a
      missing file. */
  datatype Store = Store(pages: map<string, Fetched>, shared: map<string, Fetched>)

  function Answer(answers: map<string, Fetched>, key: string): Fetched {
    if key in answers then answers[key] else Raises
  }

  /** The answer as Python sees it: a string, `None`, or an exception. */
  function AsResult(answer: Fetched, key: string): (r: Result<Option<string>>)
    ensures r.Err? <==> answer.Raises?
    ensures r == Ok(None) <==> answer.Absent?
    ensures answer.Text? ==> r == Ok(Some(answer.text))
  {
    match answer
    case Text(s) => Ok(Some(s))
    case Absent => Ok(None)
    case Raises => Err(TemplateNotFound(key))
  }

  /** `store.get_markdown_text(template_path)` */
  function PageText(store: Store, templatePath: string): Result<Option<string>> {
    AsResult(Answer(store.pages, templatePath), templatePath)
  }

  /** `store.get_shared_markdown(import_name)` */
  function SharedText(store: Store, importName: string): Result<Option<string>> {
    AsResult(Answer(store.shared, importName), importName)
  }
}
