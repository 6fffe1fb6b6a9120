/** The facade's own file-sink bookkeeping in `get_logger`, identical in both versions:
    the path it tracks (`logfile`) and the file handlers it has attached to its logger.
    A handler is represented by the path it writes to; opening the file is not modelled. */
module Logfile {
  import opened Wrappers

  datatype FileSink = FileSink(logfile: Option<string>, handlers: multiset<string>)

  /** The bookkeeping of a freshly constructed facade. */
  const NoSink: FileSink := FileSink(None, multiset{})

  /** Python truthiness of an optional path: neither `None` nor the empty string. */
  predicate Given(p: Option<string>) {
    p.Some? && p.value != ""
  }

  /** At most one facade-owned handler is attached, and it writes the tracked path. */
  predicate Consistent(s: FileSink) {
    match s.logfile
    case None => s.handlers == multiset{}
    case Some(p) => p != "" && s.handlers == multiset{p}
  }

  /** The logfile branch of `get_logger(logfile=...)`. */
  function Attach(s: FileSink, logfile: Option<string>): (r: FileSink)
    ensures !Given(logfile) ==> r == s
    ensures Given(logfile) ==> r.logfile == logfile
    ensures Given(logfile) && s.logfile == logfile ==> r == s
    ensures Given(logfile) && Given(s.logfile) && s.logfile != logfile ==>
              r.handlers == s.handlers - multiset{s.logfile.value} + multiset{logfile.value}
    ensures Given(logfile) && !Given(s.logfile) ==>
              r.handlers == s.handlers + multiset{logfile.value}
  {
    if !Given(logfile) then s
    else
      var detached :=
        if Given(s.logfile) && logfile != s.logfile
        then FileSink(None, s.handlers - multiset{s.logfile.value})
        else s;
      if Given(detached.logfile) then detached
      else FileSink(logfile, detached.handlers + multiset{logfile.value})
  }

  /** Whatever the facade tracked before, a non-empty path leaves exactly one facade-owned
      handler attached, the one for that path; the old path's handler is gone. */
  lemma AttachLeavesOneSink(s: FileSink, logfile: Option<string>)
    requires Consistent(s)
    ensures Consistent(Attach(s, logfile))
    ensures Given(logfile) ==> Attach(s, logfile).handlers == multiset{logfile.value}
    ensures Given(logfile) && Given(s.logfile) && s.logfile != logfile ==>
              Attach(s, logfile).handlers[s.logfile.value] == 0
  {
  }

  /** Passing the same path again changes nothing. */
  lemma AttachIdempotent(s: FileSink, logfile: Option<string>)
    ensures Attach(Attach(s, logfile), logfile) == Attach(s, logfile)
  {
  }

  /** `get_logger(logfile="a.log")` then `get_logger(logfile="b.log")` leaves one sink, on
      "b.log". */
  lemma SwitchLogfile(a: string, b: string)
    requires a != "" && b != "" && a != b
    ensures Attach(Attach(NoSink, Some(a)), Some(b)) == FileSink(Some(b), multiset{b})
  {
    var first := Attach(NoSink, Some(a));
    assert first == FileSink(Some(a), multiset{a});
    assert multiset{a} - multiset{a} == multiset{};
  }
}
