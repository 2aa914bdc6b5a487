/**
 * The log gate shared by every logger (logging/subtemplate_logger.py) and
 * the levels it compares (logging/log_level.py). Only the gate is modelled;
 * what a logger prints is not.
 */
module Logging {
  import opened PyStr

  const Verbose: int := 0
  const Trace: int := 1
  const Info: int := 2
  const Error: int := 3
  const Off: int := 100

  /** The text holds something other than whitespace. */
  predicate HasContent(text: string) {
    exists i :: 0 <= i < |text| && !IsSpace(text[i])
  }

  class SubtemplateLogger {
    var logLevel: int

    constructor(logLevel: int)
      ensures this.logLevel == logLevel
    {
      this.logLevel := logLevel;
    }

    /** `should_log`: the message's level reaches the logger's level and the
        text is neither empty nor whitespace only. */
    predicate ShouldLog(level: int, text: string)
      reads this
      ensures ShouldLog(level, text) <==> logLevel <= level && HasContent(text)
    {
      BlankIffStripEmpty(text);
      BlankIffAllSpace(text);
      logLevel <= level && text != "" && Strip(text) != ""
    }
  }

  /** Empty or whitespace-only text is never logged, whatever the levels. */
  lemma BlankNeverLogged(log: SubtemplateLogger, level: int, text: string)
    requires forall i :: 0 <= i < |text| ==> IsSpace(text[i])
    ensures !log.ShouldLog(level, text)
  {
  }

  /** A message logged at one level is logged at every higher level. */
  lemma LevelMonotone(log: SubtemplateLogger, level: int, higher: int, text: string)
    requires log.ShouldLog(level, text) && level <= higher
    ensures log.ShouldLog(higher, text)
  {
  }

  /** A logger at level info lets info and error messages through and holds
      back verbose and trace messages. */
  lemma InfoLevelGate(log: SubtemplateLogger, text: string)
    requires log.logLevel == Info && HasContent(text)
    ensures log.ShouldLog(Info, text) && log.ShouldLog(Error, text)
    ensures !log.ShouldLog(Verbose, text) && !log.ShouldLog(Trace, text)
  {
  }

  /** A logger at level off suppresses every standard level. */
  lemma OffSuppressesAll(log: SubtemplateLogger, level: int, text: string)
    requires log.logLevel == Off && level in {Verbose, Trace, Info, Error}
    ensures !log.ShouldLog(level, text)
  {
  }

  /** The level alone decides: a logger at a lower level lets through
      everything one at a higher level does, and two loggers at the same
      level agree on every message. */
  lemma LevelDecides(a: SubtemplateLogger, b: SubtemplateLogger, level: int, text: string)
    requires a.logLevel <= b.logLevel
    ensures b.ShouldLog(level, text) ==> a.ShouldLog(level, text)
    ensures a.logLevel == b.logLevel ==> (a.ShouldLog(level, text) <==> b.ShouldLog(level, text))
  {
  }
}
