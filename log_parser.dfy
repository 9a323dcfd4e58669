/** `src/log_parser.py`: scans a build log line by line and hands each
    compiler command to the handler of its toolchain. */
module LogParser {
  import opened Wrappers
  import opened Strings
  import opened BuildRecord
  import opened Utils
  import opened GppParser

  /** Where a log line goes: the g++ handler, the MSVC handler, or nowhere,
      with the command text it is handed. */
  datatype Command = GppCommand(text: string) | MsvcCommand(text: string) | NoCommand

  /** The test at the top of the loop of `parse_build_log`: the first marker
      found, `"g++ "` before `"cl "`, and the text after its first occurrence,
      stripped. */
  function Dispatch(line: string): Command {
    if Contains(line, "g++ ") then GppCommand(Strip(After(line, "g++ ")))
    else if Contains(line, "cl ") then MsvcCommand(Strip(After(line, "cl ")))
    else NoCommand
  }

  /** A line goes to g++ exactly when it holds `"g++ "`, to MSVC exactly when
      it holds `"cl "` but not `"g++ "`, and the command is the stripped text
      after the first occurrence of that marker. */
  lemma {:induction false} DispatchPicksFirstMarker(line: string)
    ensures Dispatch(line).GppCommand? <==> Contains(line, "g++ ")
    ensures Dispatch(line).MsvcCommand? <==> !Contains(line, "g++ ") && Contains(line, "cl ")
    ensures Dispatch(line).GppCommand? ==> Dispatch(line).text == Strip(After(line, "g++ "))
    ensures Dispatch(line).MsvcCommand? ==> Dispatch(line).text == Strip(After(line, "cl "))
  {
  }

  /** No line of `lines` is handed to the MSVC handler.  That handler is not
      part of this model and may write any key of the record, so the lemmas
      about a whole log are stated for such logs. */
  predicate NoMsvcCommands(lines: seq<string>) {
    forall k :: 0 <= k < |lines| ==> !Dispatch(lines[k]).MsvcCommand?
  }

  /** A log file as read: the lines obtained, and whether opening or reading
      it raised an IOError after them. */
  datatype LogFile = LogFile(lines: seq<string>, readError: bool)

  /** The progress of a scan: still going, or stopped by the ValueError
      `shlex.split` raises on bad quoting, which nothing catches.  The
      seen-sets outlive the scan either way. */
  datatype Progress = Scanning(st: State) | Raised(seen: Seen)
  {
    /** The seen-sets as the scan leaves them. */
    function SeenSets(): Seen {
      match this
      case Scanning(st) => st.seen
      case Raised(seen) => seen
    }
  }

  /** One iteration of the loop over the log's lines.  `split` stands for
      `shlex.split`; `None` is its ValueError.  The MSVC handler is not part of
      this model and leaves the record as it is. */
  function Step(p: Progress, line: string, split: string -> Option<seq<string>>): (q: Progress)
    ensures p.Raised? ==> q == p
    ensures q.Raised? ==> q.SeenSets() == p.SeenSets()
  {
    match p
    case Raised(_) => p
    case Scanning(st) =>
      match Dispatch(line)
      case GppCommand(command) =>
        (match split(command)
         case None => Raised(st.seen)
         case Some(parts) => Scanning(AfterLine(parts, st)))
      case MsvcCommand(_) => p
      case NoCommand => p
  }

  /** The loop over `lines`, in file order: a left fold of `Step`. */
  function Scan(p: Progress, lines: seq<string>, split: string -> Option<seq<string>>): Progress
    decreases |lines|
  {
    if lines == [] then p else Scan(Step(p, lines[0], split), lines[1..], split)
  }

  /** Scanning two stretches of lines one after the other is scanning them
      together. */
  lemma {:induction false} ScanAppend(p: Progress, lines: seq<string>, more: seq<string>, split: string -> Option<seq<string>>)
    decreases |lines|
    ensures Scan(p, lines + more, split) == Scan(Scan(p, lines, split), more, split)
  {
    if lines != [] {
      assert (lines + more)[0] == lines[0];
      assert (lines + more)[1..] == lines[1..] + more;
      var next := Step(p, lines[0], split);
      ScanAppend(next, lines[1..], more, split);
      assert Scan(p, lines + more, split) == Scan(next, lines[1..] + more, split);
      assert Scan(p, lines, split) == Scan(next, lines[1..], split);
    } else {
      assert lines + more == more;
    }
  }

  /** Once raised, the error ends the scan: later lines change nothing. */
  lemma {:induction false} ScanAfterRaised(seen: Seen, lines: seq<string>, split: string -> Option<seq<string>>)
    decreases |lines|
    ensures Scan(Raised(seen), lines, split) == Raised(seen)
  {
    if lines != [] {
      ScanAfterRaised(seen, lines[1..], split);
    }
  }

  /** Scanning a single line is one step. */
  lemma {:induction false} ScanOne(p: Progress, line: string, split: string -> Option<seq<string>>)
    ensures Scan(p, [line], split) == Step(p, line, split)
  {
    assert [line][1..] == [];
  }

  /** The scan of the first `i + 1` lines is one more step after the scan of
      the first `i`. */
  lemma {:induction false} ScanPrefixStep(p: Progress, lines: seq<string>, i: nat, split: string -> Option<seq<string>>)
    requires i < |lines|
    ensures Scan(p, lines[..i + 1], split) == Step(Scan(p, lines[..i], split), lines[i], split)
  {
    assert lines[..i + 1] == lines[..i] + [lines[i]];
    ScanAppend(p, lines[..i], [lines[i]], split);
    ScanOne(Scan(p, lines[..i], split), lines[i], split);
  }

  /** A scan stopped by the first stretch of lines stays stopped through the
      next. */
  lemma {:induction false} RaisedStaysRaised(p: Progress, done: seq<string>, rest: seq<string>, seen: Seen, split: string -> Option<seq<string>>)
    requires Scan(p, done, split) == Raised(seen)
    ensures Scan(p, done + rest, split) == Raised(seen)
  {
    ScanAppend(p, done, rest, split);
    ScanAfterRaised(seen, rest, split);
  }

  /** A scan stopped within the first `i` lines is stopped for the whole log. */
  lemma {:induction false} RaisedInPrefix(p: Progress, lines: seq<string>, i: nat, seen: Seen, split: string -> Option<seq<string>>)
    requires i <= |lines| && Scan(p, lines[..i], split) == Raised(seen)
    ensures Scan(p, lines, split) == Raised(seen)
  {
    SplitAt(lines, i);
    RaisedStaysRaised(p, lines[..i], lines[i..], seen, split);
  }

  /** What `parse_build_log` returns, or the exception it lets through. */
  datatype Outcome = Parsed(data: BuildData) | ReadFailed | TokenizeFailed

  /** The scan `parse_build_log` performs over `log`, starting from a fresh
      record and the seen-sets `seen`. */
  function ScanLog(log: LogFile, seen: Seen, split: string -> Option<seq<string>>): Progress {
    Scan(Scanning(State(EmptyRecord, seen)), log.lines, split)
  }

  /** The body of the loop of `parse_build_log` for one line.  `raised` tells
      that `shlex.split` failed on the g++ command; nothing was changed then. */
  method HandleLine(line: string, split: string -> Option<seq<string>>, data: BuildData, seen: SeenSets)
    returns (raised: bool)
    modifies data, seen
    ensures raised ==> Step(Scanning(old(State(data.Snapshot(), seen.Snapshot()))), line, split) == Raised(old(seen.Snapshot()))
    ensures raised ==> seen.Snapshot() == old(seen.Snapshot()) && data.Snapshot() == old(data.Snapshot())
    ensures !raised ==> Step(Scanning(old(State(data.Snapshot(), seen.Snapshot()))), line, split) == Scanning(State(data.Snapshot(), seen.Snapshot()))
  {
    raised := false;
    if Contains(line, "g++ ") {
      var command := Strip(After(line, "g++ "));
      var parts := split(command);
      if parts.None? {
        return true;
      }
      ProcessLine(parts.value, data, seen);
    } else if Contains(line, "cl ") {
      var command := Strip(After(line, "cl "));
      // msvc_parser.process_line(command, build_data) is not part of this model
    }
  }

  /** The loop of `parse_build_log` over the lines read: each line in order
      through its handler, until `shlex.split` raises. */
  method HandleLines(lines: seq<string>, split: string -> Option<seq<string>>, data: BuildData, seen: SeenSets)
    returns (raised: bool)
    modifies data, seen
    ensures raised ==> Scan(Scanning(old(State(data.Snapshot(), seen.Snapshot()))), lines, split) == Raised(seen.Snapshot())
    ensures !raised ==> Scan(Scanning(old(State(data.Snapshot(), seen.Snapshot()))), lines, split) == Scanning(State(data.Snapshot(), seen.Snapshot()))
  {
    ghost var start := Scanning(State(data.Snapshot(), seen.Snapshot()));
    for i := 0 to |lines|
      invariant Scan(start, lines[..i], split) == Scanning(State(data.Snapshot(), seen.Snapshot()))
    {
      ScanPrefixStep(start, lines, i, split);
      raised := HandleLine(lines[i], split, data, seen);
      if raised {
        RaisedInPrefix(start, lines, i + 1, seen.Snapshot(), split);
        return;
      }
    }
    assert lines[..|lines|] == lines;
    raised := false;
  }

  /** `parse_build_log(log_file_path)`, with the file's contents given as
      `log`: a fresh record, then every line in order through its handler. */
  method ParseBuildLog(log: LogFile, split: string -> Option<seq<string>>, seen: SeenSets) returns (outcome: Outcome)
    modifies seen
    ensures seen.Snapshot() == ScanLog(log, old(seen.Snapshot()), split).SeenSets()
    ensures ScanLog(log, old(seen.Snapshot()), split).Raised? ==> outcome == TokenizeFailed
    ensures ScanLog(log, old(seen.Snapshot()), split).Scanning? && log.readError ==> outcome == ReadFailed
    ensures ScanLog(log, old(seen.Snapshot()), split).Scanning? && !log.readError ==>
              outcome.Parsed? && fresh(outcome.data)
              && outcome.data.Snapshot() == ScanLog(log, old(seen.Snapshot()), split).st.rec
  {
    var data := new BuildData();
    var raised := HandleLines(log.lines, split, data, seen);
    if raised {
      return TokenizeFailed;
    }
    if log.readError {
      return ReadFailed;
    }
    return Parsed(data);
  }

  /** A scan keeps every bucket free of duplicates and in step with its
      seen-set. */
  lemma {:induction false} ScanKeepsConsistent(p: Progress, lines: seq<string>, split: string -> Option<seq<string>>)
    requires p.Scanning? && Consistent(p.st)
    requires NoMsvcCommands(lines)
    decreases |lines|
    ensures Scan(p, lines, split).Scanning? ==> Consistent(Scan(p, lines, split).st)
  {
    if lines != [] {
      var next := Step(p, lines[0], split);
      if next.Scanning? {
        match Dispatch(lines[0]) {
          case GppCommand(command) => LineKeepsConsistent(split(command).value, p.st);
          case MsvcCommand(_) =>
          case NoCommand =>
        }
        ScanKeepsConsistent(next, lines[1..], split);
      } else {
        ScanAfterRaised(next.seen, lines[1..], split);
      }
    }
  }

  /** Parsing a log with fresh seen-sets gives buckets without duplicates. */
  lemma {:induction false} ParsedBucketsHaveNoDuplicates(log: LogFile, split: string -> Option<seq<string>>, b: Bucket)
    requires NoMsvcCommands(log.lines)
    requires ScanLog(log, NothingSeen, split).Scanning?
    ensures NoDuplicates(ScanLog(log, NothingSeen, split).st.rec.Get(b))
  {
    ScanKeepsConsistent(Scanning(State(EmptyRecord, NothingSeen)), log.lines, split);
  }

  /** The values the g++ command on `line`, if there is one and it splits,
      sends to bucket `b`, in order. */
  function LineValues(line: string, split: string -> Option<seq<string>>, b: Bucket): seq<Value> {
    match Dispatch(line)
    case GppCommand(command) =>
      (match split(command)
       case None => []
       case Some(parts) => Values(Actions(parts), b))
    case MsvcCommand(_) => []
    case NoCommand => []
  }

  /** The values the g++ commands of `lines` send to bucket `b`, in log order. */
  function LogValues(lines: seq<string>, split: string -> Option<seq<string>>, b: Bucket): seq<Value>
    decreases |lines|
  {
    if lines == [] then [] else LineValues(lines[0], split, b) + LogValues(lines[1..], split, b)
  }

  /** One line changes bucket `b` and its seen-set as the run of `add_unique`
      calls over the values its g++ command sends there. */
  lemma {:induction false} StepBuckets(st: State, line: string, split: string -> Option<seq<string>>, b: Bucket)
    requires !Dispatch(line).MsvcCommand?
    requires Step(Scanning(st), line, split).Scanning?
    ensures Step(Scanning(st), line, split).st.rec.Get(b) == st.rec.Get(b) + Fresh(LineValues(line, split, b), st.seen.Get(b))
    ensures Step(Scanning(st), line, split).st.seen.Get(b) == st.seen.Get(b) + Elems(LineValues(line, split, b))
  {
    if Dispatch(line).GppCommand? {
      RunBuckets(st, Actions(split(Dispatch(line).text).value), b);
    } else {
      assert Elems(LineValues(line, split, b)) == {};
    }
  }

  /** After a whole log, each list is its old contents plus the log's
      not-yet-seen values for it, in the order they first occur across the
      log; each seen-set gains all of the log's values for it. */
  lemma {:induction false} ScanBuckets(st: State, lines: seq<string>, split: string -> Option<seq<string>>, b: Bucket)
    requires NoMsvcCommands(lines)
    requires Scan(Scanning(st), lines, split).Scanning?
    decreases |lines|
    ensures Scan(Scanning(st), lines, split).st.rec.Get(b) == st.rec.Get(b) + Fresh(LogValues(lines, split, b), st.seen.Get(b))
    ensures Scan(Scanning(st), lines, split).st.seen.Get(b) == st.seen.Get(b) + Elems(LogValues(lines, split, b))
  {
    if lines == [] {
      assert Elems(LogValues(lines, split, b)) == {};
    } else {
      var next := Step(Scanning(st), lines[0], split);
      if next.Raised? {
        ScanAfterRaised(next.seen, lines[1..], split);
        assert false;
      }
      assert !Dispatch(lines[0]).MsvcCommand?;
      StepBuckets(st, lines[0], split, b);
      ScanBuckets(next.st, lines[1..], split, b);
      var last := Scan(next, lines[1..], split).st;
      FreshChain(st.rec.Get(b), st.seen.Get(b), LineValues(lines[0], split, b), LogValues(lines[1..], split, b),
                 next.st.rec.Get(b), next.st.seen.Get(b), last.rec.Get(b), last.seen.Get(b));
    }
  }

  /** Parsing a log with fresh seen-sets: each bucket holds the log's values
      for it, each once, in first-seen order. */
  lemma {:induction false} ParsedBucket(log: LogFile, split: string -> Option<seq<string>>, b: Bucket)
    requires NoMsvcCommands(log.lines)
    requires ScanLog(log, NothingSeen, split).Scanning?
    ensures ScanLog(log, NothingSeen, split).st.rec.Get(b) == Fresh(LogValues(log.lines, split, b), {})
  {
    ScanBuckets(State(EmptyRecord, NothingSeen), log.lines, split, b);
    assert EmptyRecord.Get(b) == [] && NothingSeen.Get(b) == {};
  }

  /** Parsing a log with fresh seen-sets: a bucket holds a value exactly when
      the log sends that value to it. */
  lemma {:induction false} ParsedBucketContents(log: LogFile, split: string -> Option<seq<string>>, b: Bucket, x: Value)
    requires NoMsvcCommands(log.lines)
    requires ScanLog(log, NothingSeen, split).Scanning?
    ensures x in ScanLog(log, NothingSeen, split).st.rec.Get(b) <==> x in LogValues(log.lines, split, b)
  {
    ParsedBucket(log, split, b);
    FreshElems(LogValues(log.lines, split, b), {}, x);
  }

  /** Parsing a log with fresh seen-sets: a value listed before another in a
      bucket first occurs earlier in the log. */
  lemma {:induction false} ParsedBucketFirstSeenOrder(log: LogFile, split: string -> Option<seq<string>>, b: Bucket, i: nat, j: nat)
    requires NoMsvcCommands(log.lines)
    requires ScanLog(log, NothingSeen, split).Scanning?
    requires i < j < |ScanLog(log, NothingSeen, split).st.rec.Get(b)|
    ensures var list, vs := ScanLog(log, NothingSeen, split).st.rec.Get(b), LogValues(log.lines, split, b);
            list[i] in vs && list[j] in vs && FirstIndex(vs, list[i]) < FirstIndex(vs, list[j])
  {
    ParsedBucket(log, split, b);
    FreshFirstSeenOrder(LogValues(log.lines, split, b), {}, i, j);
  }

  /** A scan leaves `debug_flags`, `linker_flags` and `output` as they were. */
  lemma {:induction false} ScanKeepsOtherKeys(p: Progress, lines: seq<string>, split: string -> Option<seq<string>>)
    requires p.Scanning?
    requires NoMsvcCommands(lines)
    decreases |lines|
    ensures var q := Scan(p, lines, split);
            q.Scanning? ==> q.st.rec.debugFlags == p.st.rec.debugFlags && q.st.rec.linkerFlags == p.st.rec.linkerFlags
                            && q.st.rec.output == p.st.rec.output
  {
    if lines != [] {
      var next := Step(p, lines[0], split);
      if next.Scanning? {
        match Dispatch(lines[0]) {
          case GppCommand(command) => LineKeepsOtherKeys(split(command).value, p.st);
          case MsvcCommand(_) =>
          case NoCommand =>
        }
        ScanKeepsOtherKeys(next, lines[1..], split);
      } else {
        ScanAfterRaised(next.seen, lines[1..], split);
      }
    }
  }

  /** Lines without `"g++ "`, none of them an MSVC command, leave the record
      and the seen-sets as they are. */
  lemma {:induction false} ScanWithoutGpp(p: Progress, lines: seq<string>, split: string -> Option<seq<string>>)
    requires forall k :: 0 <= k < |lines| ==> !Contains(lines[k], "g++ ")
    requires NoMsvcCommands(lines)
    decreases |lines|
    ensures Scan(p, lines, split) == p
  {
    if lines != [] {
      ScanWithoutGpp(p, lines[1..], split);
    }
  }

  /** A scan only adds to the seen-sets. */
  lemma {:induction false} ScanGrowsSeen(p: Progress, lines: seq<string>, split: string -> Option<seq<string>>)
    decreases |lines|
    ensures SeenIncludes(Scan(p, lines, split).SeenSets(), p.SeenSets())
  {
    if lines != [] {
      var next := Step(p, lines[0], split);
      if p.Scanning? {
        match Dispatch(lines[0]) {
          case GppCommand(command) =>
            if split(command).Some? { LineGrowsSeen(split(command).value, p.st); }
          case MsvcCommand(_) =>
          case NoCommand =>
        }
      }
      ScanGrowsSeen(next, lines[1..], split);
    }
  }

  /** Scanning again, with seen-sets that hold everything a first scan of the
      same lines left in them, adds nothing to any bucket. */
  lemma {:induction false} RescanAddsNothing(st: State, lines: seq<string>, split: string -> Option<seq<string>>, other: State)
    requires NoMsvcCommands(lines)
    requires Scan(Scanning(st), lines, split).Scanning?
    requires SeenIncludes(other.seen, Scan(Scanning(st), lines, split).st.seen)
    decreases |lines|
    ensures Scan(Scanning(other), lines, split) == Scanning(other)
  {
    if lines != [] {
      var next := Step(Scanning(st), lines[0], split);
      if next.Raised? {
        ScanAfterRaised(next.seen, lines[1..], split);
        assert false;
      } else {
        ScanGrowsSeen(next, lines[1..], split);
        RescanAddsNothing(next.st, lines[1..], split, other);
        match Dispatch(lines[0]) {
          case GppCommand(command) =>
            var parts := split(command).value;
            LineGrowsSeen(parts, st);
            forall b: Bucket ensures Elems(Values(Actions(parts), b)) <= other.seen.Get(b) {
              assert Elems(Values(Actions(parts), b)) <= next.st.seen.Get(b);
            }
            LineWithNothingNew(parts, other);
          case MsvcCommand(_) =>
          case NoCommand =>
        }
      }
    }
  }

  /** The seen-sets are shared by every call: parsing the same log a second
      time in one process yields a record with every bucket empty. */
  lemma {:induction false} SecondParseRecordsNothing(log: LogFile, seen: Seen, split: string -> Option<seq<string>>)
    requires NoMsvcCommands(log.lines)
    requires ScanLog(log, seen, split).Scanning?
    ensures var again := ScanLog(log, ScanLog(log, seen, split).st.seen, split);
            again.Scanning? && again.st.rec == EmptyRecord
  {
    var first := ScanLog(log, seen, split).st;
    RescanAddsNothing(State(EmptyRecord, seen), log.lines, split, State(EmptyRecord, first.seen));
  }
}
