/** `src/parsers/gpp_parser.py`: classifies the tokens of one g++ command
    into the buckets of a build record. */
module GppParser {
  import opened Wrappers
  import opened Strings
  import opened Utils
  import opened BuildRecord

  /** The strings `(-W\S+|/W\d)` matches in full: `-W` and at least one
      non-whitespace character, or `/W` and one digit. */
  predicate WarningShaped(m: string) {
    (|m| >= 3 && m[..2] == "-W" && forall k :: 2 <= k < |m| ==> !IsSpace(m[k]))
    || (|m| == 3 && m[..2] == "/W" && IsDigit(m[2]))
  }

  /** The strings `-O\d` matches in full. */
  predicate OptimisationShaped(m: string) {
    |m| == 3 && m[..2] == "-O" && IsDigit(m[2])
  }

  /** The strings `\S+\.cpp` matches in full. */
  predicate SourceShaped(m: string) {
    |m| >= 5 && EndsWith(m, ".cpp") && forall k :: 0 <= k < |m| ==> !IsSpace(m[k])
  }

  /** The length of the run of non-whitespace characters of `t` from index `k`. */
  function NonSpaceRun(t: string, k: nat): (n: nat)
    requires k <= |t|
    decreases |t| - k
    ensures k + n <= |t| && (k + n == |t| || IsSpace(t[k + n]))
    ensures forall j :: k <= j < k + n ==> !IsSpace(t[j])
  {
    if k < |t| && !IsSpace(t[k]) then 1 + NonSpaceRun(t, k + 1) else 0
  }

  /** `warning_pattern.match(t).group()`: `-W` and the run of non-whitespace
      after it, or `/W` and one digit, at the start of `t`. */
  function WarningMatch(t: string): (r: Option<string>)
    ensures r.Some? ==> StartsWith(t, r.value)
  {
    if |t| >= 3 && t[..2] == "-W" && !IsSpace(t[2]) then Some(t[..2 + NonSpaceRun(t, 2)])
    else if |t| >= 3 && t[..2] == "/W" && IsDigit(t[2]) then Some(t[..3])
    else None
  }

  /** The match is the longest warning-shaped prefix of `t`, since `\S+` is
      greedy and the two alternatives start differently; there is no match
      when no prefix is warning-shaped. */
  lemma {:induction false} WarningMatchIsLongestShapedPrefix(t: string)
    ensures WarningMatch(t).Some? ==> WarningShaped(WarningMatch(t).value)
    ensures WarningMatch(t).Some? ==> forall n :: |WarningMatch(t).value| < n <= |t| ==> !WarningShaped(t[..n])
    ensures WarningMatch(t).None? ==> forall n :: 0 <= n <= |t| ==> !WarningShaped(t[..n])
  {
    if |t| >= 3 && t[..2] == "-W" && !IsSpace(t[2]) {
      var m := t[..2 + NonSpaceRun(t, 2)];
      assert forall n :: |m| < n <= |t| ==> t[..n][|m|] == t[|m|];
    } else if |t| >= 3 && t[..2] == "/W" && IsDigit(t[2]) {
    } else {
      assert forall n :: 3 <= n <= |t| ==> t[..n][..2] == t[..2] && t[..n][2] == t[2];
    }
  }

  /** `optimization_pattern.match(t).group()`: `-O` and one digit at the start
      of `t`. */
  function OptimisationMatch(t: string): (r: Option<string>)
    ensures r.Some? ==> StartsWith(t, r.value)
  {
    if |t| >= 3 && t[..2] == "-O" && IsDigit(t[2]) then Some(t[..3]) else None
  }

  /** The match is an optimisation-shaped prefix of `t`, and there is none
      when no prefix is optimisation-shaped. */
  lemma {:induction false} OptimisationMatchIsShapedPrefix(t: string)
    ensures OptimisationMatch(t).Some? ==> OptimisationShaped(OptimisationMatch(t).value)
    ensures OptimisationMatch(t).None? ==> forall n :: 0 <= n <= |t| ==> !OptimisationShaped(t[..n])
  {
    if OptimisationMatch(t).None? {
      assert forall n :: 3 <= n <= |t| ==> t[..n][..2] == t[..2] && t[..n][2] == t[2];
    }
  }

  /** `source_pattern.match(t).group()`: `(\S+\.cpp)$` must match from the
      start of `t` up to its end or up to a final newline, and the group leaves
      that newline out. */
  function SourceMatch(t: string): (r: Option<string>)
    ensures r.Some? ==> r.value == t || r.value + "\n" == t
  {
    if SourceShaped(t) then Some(t)
    else if |t| >= 1 && t[|t| - 1] == '\n' && SourceShaped(t[..|t| - 1]) then Some(t[..|t| - 1])
    else None
  }

  /** The pattern matches exactly when a source-shaped prefix of `t` reaches
      its end or a final newline, and the group is that prefix. */
  lemma {:induction false} SourceMatchIsAnchoredShape(t: string)
    ensures SourceMatch(t).Some? <==> exists n :: 0 <= n <= |t| && SourceShaped(t[..n]) && (t[n..] == "" || t[n..] == "\n")
    ensures SourceMatch(t).Some? ==> SourceShaped(SourceMatch(t).value)
  {
    if SourceShaped(t) {
      assert t[..|t|] == t && t[|t|..] == "";
    } else if |t| >= 1 && t[|t| - 1] == '\n' && SourceShaped(t[..|t| - 1]) {
      assert t[|t| - 1..] == "\n";
    } else {
      NoSourcePrefix(t);
    }
  }

  /** When neither `t` nor `t` without a final newline is source-shaped, no
      source-shaped prefix of `t` reaches its end or a final newline. */
  lemma {:induction false} NoSourcePrefix(t: string)
    requires !SourceShaped(t)
    requires !(|t| >= 1 && t[|t| - 1] == '\n' && SourceShaped(t[..|t| - 1]))
    ensures forall n :: 0 <= n <= |t| && (t[n..] == "" || t[n..] == "\n") ==> !SourceShaped(t[..n])
  {
    forall n | 0 <= n <= |t| && (t[n..] == "" || t[n..] == "\n")
      ensures !SourceShaped(t[..n])
    {
      if t[n..] == "" {
        assert t[..n] == t;
      } else {
        assert |t[n..]| == 1 && t[n..][0] == t[n];
        assert n == |t| - 1 && t[|t| - 1] == '\n';
      }
    }
  }

  /** What handling one token does to the record: append `value` to `bucket`
      through `add_unique`, or nothing (a `-Wl,` token). */
  datatype Action = Add(bucket: Bucket, value: Value) | Skip

  /** The branch of the loop body of `process_line` that the token at index `i`
      takes: the first of `-I`, `-L`, `-l`, `-Wl,`, warning, optimisation,
      source that matches, else `others`. */
  function Classify(parts: seq<string>, i: nat): Action
    requires i < |parts|
  {
    var part := parts[i];
    if StartsWith(part, "-I") then Add(IncludeDirs, ExtractOptionValues("-I", parts, i))
    else if StartsWith(part, "-L") then Add(LibraryDirs, ExtractOptionValues("-L", parts, i))
    else if StartsWith(part, "-l") then Add(Libraries, ExtractOptionValues("-l", parts, i))
    else if StartsWith(part, "-Wl,") then Skip
    else if WarningMatch(part).Some? then Add(CompilerFlags, WarningMatch(part))
    else if OptimisationMatch(part).Some? then Add(CompilerFlags, OptimisationMatch(part))
    else if SourceMatch(part).Some? then Add(Sources, SourceMatch(part))
    else Add(Others, Some(part))
  }

  /** The actions of all tokens of a command, in token order. */
  function Actions(parts: seq<string>): seq<Action> {
    seq(|parts|, i requires 0 <= i < |parts| => Classify(parts, i))
  }

  /** One action sends its value to bucket `b` when it is an `Add` to `b`. */
  function SentTo(a: Action, b: Bucket): seq<Value> {
    if a.Add? && a.bucket == b then [a.value] else []
  }

  /** The values that `acts` send to bucket `b`, in order. */
  function Values(acts: seq<Action>, b: Bucket): seq<Value> {
    if acts == [] then []
    else
      Values(acts[..|acts| - 1], b) + SentTo(acts[|acts| - 1], b)
  }

  /** A build record together with the seen-sets that guard it. */
  datatype State = State(rec: Record, seen: Seen)

  /** The effect of one action: `add_unique(value, build_data[bucket], seen)`. */
  function Apply(st: State, a: Action): State {
    match a
    case Skip => st
    case Add(b, v) =>
      if v in st.seen.Get(b) then st
      else State(st.rec.Put(b, st.rec.Get(b) + [v]), st.seen.Put(b, st.seen.Get(b) + {v}))
  }

  /** The state after the actions `acts`, applied in order. */
  function Run(st: State, acts: seq<Action>): State {
    if acts == [] then st else Apply(Run(st, acts[..|acts| - 1]), acts[|acts| - 1])
  }

  /** Running one more action applies it to the state the others left. */
  lemma {:induction false} RunSnoc(st: State, acts: seq<Action>, a: Action)
    ensures Run(st, acts + [a]) == Apply(Run(st, acts), a)
  {
    assert (acts + [a])[..|acts|] == acts;
  }

  /** The record after a whole command. */
  function AfterLine(parts: seq<string>, st: State): State {
    Run(st, Actions(parts))
  }

  /** One action changes bucket `b` and its seen-set exactly as `add_unique`
      does when it is an `Add` to `b`, and leaves them alone otherwise. */
  lemma {:induction false} ApplyBucket(st: State, a: Action, b: Bucket)
    ensures Apply(st, a).rec.Get(b) == st.rec.Get(b) + (if a.Add? && a.bucket == b && a.value !in st.seen.Get(b) then [a.value] else [])
    ensures Apply(st, a).seen.Get(b) == st.seen.Get(b) + Elems(SentTo(a, b))
  {
    if a.Add? && a.bucket == b {
      assert Elems(SentTo(a, b)) == {a.value};
    } else {
      assert Elems(SentTo(a, b)) == {};
    }
  }

  /** The step of `RunBuckets`: if bucket `b` holds `list0` plus what a run
      of `add_unique` calls with `vs` appends, one more action keeps it so. */
  lemma {:induction false} BucketStep(list0: seq<Value>, seen0: set<Value>, prev: State, vs: seq<Value>, a: Action, b: Bucket)
    requires prev.rec.Get(b) == list0 + Fresh(vs, seen0)
    requires prev.seen.Get(b) == seen0 + Elems(vs)
    ensures Apply(prev, a).rec.Get(b) == list0 + Fresh(vs + SentTo(a, b), seen0)
    ensures Apply(prev, a).seen.Get(b) == seen0 + Elems(vs + SentTo(a, b))
  {
    ApplyBucket(prev, a, b);
    ElemsAppend(vs, SentTo(a, b));
    if a.Add? && a.bucket == b {
      FreshSnoc(vs, a.value, seen0);
    } else {
      assert vs + SentTo(a, b) == vs;
    }
  }

  /** Running actions appends to each bucket, in first-seen order, the values
      sent to it that its seen-set did not hold, and adds every value sent to it
      to its seen-set. */
  lemma {:induction false} RunBuckets(st: State, acts: seq<Action>, b: Bucket)
    ensures Run(st, acts).rec.Get(b) == st.rec.Get(b) + Fresh(Values(acts, b), st.seen.Get(b))
    ensures Run(st, acts).seen.Get(b) == st.seen.Get(b) + Elems(Values(acts, b))
  {
    if acts != [] {
      var init, last := acts[..|acts| - 1], acts[|acts| - 1];
      RunBuckets(st, init, b);
      BucketStep(st.rec.Get(b), st.seen.Get(b), Run(st, init), Values(init, b), last, b);
    }
  }

  /** Running actions touches neither `debug_flags`, `linker_flags` nor
      `output`. */
  lemma {:induction false} RunKeepsOtherKeys(st: State, acts: seq<Action>)
    ensures Run(st, acts).rec.debugFlags == st.rec.debugFlags
    ensures Run(st, acts).rec.linkerFlags == st.rec.linkerFlags
    ensures Run(st, acts).rec.output == st.rec.output
  {
    if acts != [] {
      RunKeepsOtherKeys(st, acts[..|acts| - 1]);
    }
  }

  /** `add_unique(value, build_data[key], key_seen)` for the key and seen-set
      of bucket `b`. */
  method AddToBucket(b: Bucket, value: Value, data: BuildData, seen: SeenSets)
    modifies data, seen
    ensures State(data.Snapshot(), seen.Snapshot()) == Apply(old(State(data.Snapshot(), seen.Snapshot())), Add(b, value))
  {
    match b {
      case IncludeDirs =>
        data.includeDirs, seen.includes := AddUnique(value, data.includeDirs, seen.includes);
      case LibraryDirs =>
        data.libraryDirs, seen.libraryDirs := AddUnique(value, data.libraryDirs, seen.libraryDirs);
      case Libraries =>
        data.libraries, seen.libraries := AddUnique(value, data.libraries, seen.libraries);
      case CompilerFlags =>
        data.compilerFlags, seen.compilerFlags := AddUnique(value, data.compilerFlags, seen.compilerFlags);
      case Sources =>
        data.sources, seen.sources := AddUnique(value, data.sources, seen.sources);
      case Others =>
        data.others, seen.others := AddUnique(value, data.others, seen.others);
    }
  }

  /** The body of the loop of `process_line` for the token at index `i`. */
  method HandleToken(parts: seq<string>, i: nat, data: BuildData, seen: SeenSets)
    requires i < |parts|
    modifies data, seen
    ensures State(data.Snapshot(), seen.Snapshot()) == Apply(old(State(data.Snapshot(), seen.Snapshot())), Classify(parts, i))
  {
    var part := parts[i];
    if StartsWith(part, "-I") {
      var includeParam := ExtractOptionValues("-I", parts, i);
      AddToBucket(IncludeDirs, includeParam, data, seen);
    } else if StartsWith(part, "-L") {
      var libDir := ExtractOptionValues("-L", parts, i);
      AddToBucket(LibraryDirs, libDir, data, seen);
    } else if StartsWith(part, "-l") {
      var libName := ExtractOptionValues("-l", parts, i);
      AddToBucket(Libraries, libName, data, seen);
    } else if StartsWith(part, "-Wl,") {
      // linker pass-through options are not recorded
    } else if WarningMatch(part).Some? {
      AddToBucket(CompilerFlags, WarningMatch(part), data, seen);
    } else if OptimisationMatch(part).Some? {
      AddToBucket(CompilerFlags, OptimisationMatch(part), data, seen);
    } else if SourceMatch(part).Some? {
      AddToBucket(Sources, SourceMatch(part), data, seen);
    } else {
      AddToBucket(Others, Some(part), data, seen);
    }
  }

  /** `process_line(line, build_data)`, given the tokens `shlex.split(line)`:
      every token is classified once, in order, and its value added to its
      bucket through `add_unique`. */
  method ProcessLine(parts: seq<string>, data: BuildData, seen: SeenSets)
    modifies data, seen
    ensures State(data.Snapshot(), seen.Snapshot()) == AfterLine(parts, old(State(data.Snapshot(), seen.Snapshot())))
  {
    ghost var st0 := State(data.Snapshot(), seen.Snapshot());
    ghost var acts := Actions(parts);
    for i := 0 to |parts|
      invariant State(data.Snapshot(), seen.Snapshot()) == Run(st0, acts[..i])
    {
      HandleToken(parts, i, data, seen);
      assert acts[..i + 1] == acts[..i] + [acts[i]];
    }
    assert acts[..|parts|] == acts;
  }

  /** Every bucket holds each member of its seen-set exactly once. */
  predicate Consistent(st: State) {
    forall b: Bucket :: Tracks(st.rec.Get(b), st.seen.Get(b))
  }

  /** A consistent state stays consistent: however many commands are
      processed, no bucket gains a duplicate. */
  lemma {:induction false} LineKeepsConsistent(parts: seq<string>, st: State)
    requires Consistent(st)
    ensures Consistent(AfterLine(parts, st))
  {
    var acts := Actions(parts);
    forall b: Bucket ensures Tracks(AfterLine(parts, st).rec.Get(b), AfterLine(parts, st).seen.Get(b)) {
      RunBuckets(st, acts, b);
      FreshKeepsTracking(st.rec.Get(b), st.seen.Get(b), Values(acts, b));
    }
  }

  /** A command never touches `debug_flags`, `linker_flags` or `output`. */
  lemma {:induction false} LineKeepsOtherKeys(parts: seq<string>, st: State)
    ensures AfterLine(parts, st).rec.debugFlags == st.rec.debugFlags
    ensures AfterLine(parts, st).rec.linkerFlags == st.rec.linkerFlags
    ensures AfterLine(parts, st).rec.output == st.rec.output
  {
    RunKeepsOtherKeys(st, Actions(parts));
  }

  /** A `-Wl,` token, and only such a token, is recorded nowhere. */
  lemma {:induction false} SkipIffLinkerPassThrough(parts: seq<string>, i: nat)
    requires i < |parts|
    ensures Classify(parts, i) == Skip <==> StartsWith(parts[i], "-Wl,")
  {
    if StartsWith(parts[i], "-Wl,") {
      assert parts[i][..2] == "-W";
    }
  }

  /** A token lands in `others`, as itself, exactly when no earlier test
      matches it. */
  lemma {:induction false} OthersIffNothingMatches(parts: seq<string>, i: nat)
    requires i < |parts|
    ensures Classify(parts, i).Add? && Classify(parts, i).bucket == Others
            <==> !StartsWith(parts[i], "-I") && !StartsWith(parts[i], "-L") && !StartsWith(parts[i], "-l")
                 && !StartsWith(parts[i], "-Wl,") && WarningMatch(parts[i]).None?
                 && OptimisationMatch(parts[i]).None? && SourceMatch(parts[i]).None?
    ensures Classify(parts, i).Add? && Classify(parts, i).bucket == Others ==> Classify(parts, i).value == Some(parts[i])
  {
  }

  /** A compiler flag is the warning- or optimisation-shaped start of its
      token, not the whole token. */
  lemma {:induction false} CompilerFlagIsMatchedPrefix(parts: seq<string>, i: nat)
    requires i < |parts| && Classify(parts, i).Add? && Classify(parts, i).bucket == CompilerFlags
    ensures Classify(parts, i).value.Some?
    ensures StartsWith(parts[i], Classify(parts, i).value.value)
    ensures WarningShaped(Classify(parts, i).value.value) || OptimisationShaped(Classify(parts, i).value.value)
  {
  }

  /** A token with a space in it (one that was quoted on the command line) is
      never a source. */
  lemma {:induction false} SpacedTokenIsNoSource(t: string)
    requires ' ' in t
    ensures SourceMatch(t).None?
  {
  }

  /** A bare `-I`, `-L` or `-l` as the last token sends `None` to its bucket. */
  lemma {:induction false} BareTrailingOptionSendsNone(parts: seq<string>)
    requires |parts| > 0 && parts[|parts| - 1] in {"-I", "-L", "-l"}
    ensures Classify(parts, |parts| - 1).Add?
    ensures Classify(parts, |parts| - 1).value == None
  {
  }

  /** `-Wl,…` is warning-shaped, but the `-Wl,` test comes first: skipped. */
  lemma LinkerPassThroughBeatsWarning()
    ensures Classify(["-Wl,-rpath"], 0) == Skip
  {
    assert "-Wl,-rpath"[..2] == "-W" && "-Wl,-rpath"[..4] == "-Wl,";
  }

  /** `-lm.cpp` ends in `.cpp`, but the `-l` test comes first: a library. */
  lemma LibraryBeatsSource()
    ensures Classify(["-lm.cpp"], 0) == Add(Libraries, Some("m.cpp"))
  {
    assert "-lm.cpp"[..2] == "-l";
    assert "-lm.cpp"[2..] == "m.cpp";
  }

  /** `-W` alone, `-O` alone and `-Os` match neither flag pattern: `others`. */
  lemma IncompleteFlagsGoToOthers()
    ensures Classify(["-W"], 0) == Add(Others, Some("-W"))
    ensures Classify(["-O"], 0) == Add(Others, Some("-O"))
    ensures Classify(["-Os"], 0) == Add(Others, Some("-Os"))
  {
    assert "-Os"[..2] == "-O";
  }

  /** `-O\d` takes one digit and ignores the rest of the token. */
  lemma OptimisationTakesOneDigit()
    ensures Classify(["-O3x"], 0) == Add(CompilerFlags, Some("-O3"))
  {
    assert "-O3x"[..2] == "-O" && "-O3x"[..3] == "-O3";
  }

  /** What the tests of `process_line` find in `-Wall`: a warning flag. */
  lemma WallIsWarning()
    ensures !StartsWith("-Wall", "-I") && !StartsWith("-Wall", "-L") && !StartsWith("-Wall", "-l")
    ensures !StartsWith("-Wall", "-Wl,") && WarningMatch("-Wall") == Some("-Wall")
  {
    assert "-Wall"[..2] == "-W" && "-Wall"[..4] == "-Wal";
    assert NonSpaceRun("-Wall", 2) == 3;
    assert "-Wall"[..5] == "-Wall";
  }

  /** What the tests of `process_line` find in `-O2`: an optimisation flag. */
  lemma O2IsOptimisation()
    ensures !StartsWith("-O2", "-I") && !StartsWith("-O2", "-L") && !StartsWith("-O2", "-l")
    ensures !StartsWith("-O2", "-Wl,") && WarningMatch("-O2").None? && OptimisationMatch("-O2") == Some("-O2")
  {
    assert "-O2"[..2] == "-O" && "-O2"[..3] == "-O2";
  }

  /** What the tests of `process_line` find in `main.cpp`: a source. */
  lemma MainCppIsSource()
    ensures !StartsWith("main.cpp", "-I") && !StartsWith("main.cpp", "-L") && !StartsWith("main.cpp", "-l")
    ensures !StartsWith("main.cpp", "-Wl,") && WarningMatch("main.cpp").None? && OptimisationMatch("main.cpp").None?
    ensures SourceMatch("main.cpp") == Some("main.cpp")
  {
    assert "main.cpp"[..2] == "ma" && "main.cpp"[..4] == "main";
    assert "main.cpp"[4..] == ".cpp";
  }

  /** The tokens of `g++ -Wall -O2 -Imyinc -lfoo main.cpp`, one action each. */
  lemma ExampleCommandActions()
    ensures Actions(["-Wall", "-O2", "-Imyinc", "-lfoo", "main.cpp"])
            == [Add(CompilerFlags, Some("-Wall")), Add(CompilerFlags, Some("-O2")), Add(IncludeDirs, Some("myinc")),
                Add(Libraries, Some("foo")), Add(Sources, Some("main.cpp"))]
  {
    var parts := ["-Wall", "-O2", "-Imyinc", "-lfoo", "main.cpp"];
    WallIsWarning();
    O2IsOptimisation();
    MainCppIsSource();
    assert "-Imyinc"[..2] == "-I" && "-Imyinc"[2..] == "myinc";
    assert "-lfoo"[..2] == "-l" && "-lfoo"[2..] == "foo";
    assert Classify(parts, 2) == Add(IncludeDirs, Some("myinc")) by {
      assert parts[2] == "-Imyinc" && parts[2] != "-I";
    }
    assert Classify(parts, 3) == Add(Libraries, Some("foo")) by {
      assert parts[3] == "-lfoo" && parts[3] != "-l";
    }
  }

  /** Five actions in a row are five applications, first to last. */
  lemma {:induction false} RunFive(st: State, acts: seq<Action>)
    requires |acts| == 5
    ensures Run(st, acts) == Apply(Apply(Apply(Apply(Apply(st, acts[0]), acts[1]), acts[2]), acts[3]), acts[4])
  {
    assert acts[..1][..0] == [];
    assert Run(st, acts[..1]) == Apply(st, acts[0]);
    assert acts[..2][..1] == acts[..1];
    assert Run(st, acts[..2]) == Apply(Run(st, acts[..1]), acts[1]);
    assert acts[..3][..2] == acts[..2];
    assert Run(st, acts[..3]) == Apply(Run(st, acts[..2]), acts[2]);
    assert acts[..4][..3] == acts[..3];
    assert Run(st, acts[..4]) == Apply(Run(st, acts[..3]), acts[3]);
    assert acts[..4] == acts[..|acts| - 1];
  }

  /** The state the example command leaves after its two compiler flags. */
  function ExampleFlagsState(): State {
    State(EmptyRecord.(compilerFlags := [Some("-Wall"), Some("-O2")]),
          NothingSeen.(compilerFlags := {Some("-Wall"), Some("-O2")}))
  }

  /** `-Wall` then `-O2` on a fresh record: both become compiler flags. */
  lemma ExampleFlags()
    ensures Apply(Apply(State(EmptyRecord, NothingSeen), Add(CompilerFlags, Some("-Wall"))),
                  Add(CompilerFlags, Some("-O2"))) == ExampleFlagsState()
  {
    var st1 := Apply(State(EmptyRecord, NothingSeen), Add(CompilerFlags, Some("-Wall")));
    assert st1 == State(EmptyRecord.(compilerFlags := [Some("-Wall")]), NothingSeen.(compilerFlags := {Some("-Wall")}));
  }

  /** `-Imyinc`, `-lfoo` and `main.cpp` after the two flags: each lands in its
      own, still empty, bucket. */
  lemma ExampleRest()
    ensures Apply(Apply(Apply(ExampleFlagsState(), Add(IncludeDirs, Some("myinc"))), Add(Libraries, Some("foo"))),
                  Add(Sources, Some("main.cpp"))).rec
            == EmptyRecord.(compilerFlags := [Some("-Wall"), Some("-O2")], includeDirs := [Some("myinc")],
                            libraries := [Some("foo")], sources := [Some("main.cpp")])
  {
    var st2 := ExampleFlagsState();
    var st3 := Apply(st2, Add(IncludeDirs, Some("myinc")));
    assert st3.rec == st2.rec.(includeDirs := [Some("myinc")]);
    assert st3.seen.libraries == {} && st3.seen.sources == {};
    var st4 := Apply(st3, Add(Libraries, Some("foo")));
    assert st4.rec == st3.rec.(libraries := [Some("foo")]);
    assert st4.seen.sources == {};
  }

  /** `g++ -Wall -O2 -Imyinc -lfoo main.cpp` on a fresh record. */
  lemma ExampleCommand()
    ensures AfterLine(["-Wall", "-O2", "-Imyinc", "-lfoo", "main.cpp"], State(EmptyRecord, NothingSeen)).rec
            == EmptyRecord.(compilerFlags := [Some("-Wall"), Some("-O2")], includeDirs := [Some("myinc")],
                            libraries := [Some("foo")], sources := [Some("main.cpp")])
  {
    ExampleCommandActions();
    var acts := [Add(CompilerFlags, Some("-Wall")), Add(CompilerFlags, Some("-O2")), Add(IncludeDirs, Some("myinc")),
                 Add(Libraries, Some("foo")), Add(Sources, Some("main.cpp"))];
    RunFive(State(EmptyRecord, NothingSeen), acts);
    ExampleFlags();
    ExampleRest();
  }

  /** What the tests of `process_line` find in `/usr/include`: nothing. */
  lemma UsrIncludeMatchesNothing()
    ensures !StartsWith("/usr/include", "-I") && !StartsWith("/usr/include", "-L") && !StartsWith("/usr/include", "-l")
    ensures !StartsWith("/usr/include", "-Wl,") && WarningMatch("/usr/include").None?
    ensures OptimisationMatch("/usr/include").None? && SourceMatch("/usr/include").None?
  {
    assert "/usr/include"[..2] == "/u" && "/usr/include"[..4] == "/usr";
    assert "/usr/include"[8..] != ".cpp";
  }

  /** The actions of `-I /usr/include`: the value goes to `include_dirs` from
      the option's index, then to `others` from its own. */
  lemma SeparatedValueActions()
    ensures Actions(["-I", "/usr/include"])
            == [Add(IncludeDirs, Some("/usr/include")), Add(Others, Some("/usr/include"))]
  {
    var parts := ["-I", "/usr/include"];
    UsrIncludeMatchesNothing();
    assert Classify(parts, 0) == Add(IncludeDirs, Some("/usr/include"));
    assert Classify(parts, 1) == Add(Others, Some("/usr/include"));
  }

  /** `g++ -I /usr/include`: the separated value is also classified on its own,
      so it lands in `include_dirs` and in `others`. */
  lemma SeparatedValueClassifiedTwice()
    ensures var r := AfterLine(["-I", "/usr/include"], State(EmptyRecord, NothingSeen)).rec;
            r.includeDirs == [Some("/usr/include")] && r.others == [Some("/usr/include")]
  {
    var parts := ["-I", "/usr/include"];
    var acts := [Add(IncludeDirs, Some("/usr/include")), Add(Others, Some("/usr/include"))];
    SeparatedValueActions();
    var st0 := State(EmptyRecord, NothingSeen);
    RunSnoc(st0, [], acts[0]);
    RunSnoc(st0, acts[..1], acts[1]);
    assert [] + [acts[0]] == acts[..1] && acts[..1] + [acts[1]] == acts;
    var st1 := Apply(st0, acts[0]);
    assert st1.rec == EmptyRecord.(includeDirs := [Some("/usr/include")]);
    assert st1.seen.others == {};
  }

  /** The seen-sets `s` hold at least what `t` holds. */
  predicate SeenIncludes(s: Seen, t: Seen) {
    forall b: Bucket :: t.Get(b) <= s.Get(b)
  }

  /** After a command, the seen-sets hold everything before plus every value
      the command sent. */
  lemma {:induction false} LineGrowsSeen(parts: seq<string>, st: State)
    ensures SeenIncludes(AfterLine(parts, st).seen, st.seen)
    ensures forall b: Bucket :: Elems(Values(Actions(parts), b)) <= AfterLine(parts, st).seen.Get(b)
  {
    forall b: Bucket ensures AfterLine(parts, st).seen.Get(b) == st.seen.Get(b) + Elems(Values(Actions(parts), b)) {
      RunBuckets(st, Actions(parts), b);
    }
  }

  /** A command all of whose values were seen already changes nothing. */
  lemma {:induction false} LineWithNothingNew(parts: seq<string>, st: State)
    requires forall b: Bucket :: Elems(Values(Actions(parts), b)) <= st.seen.Get(b)
    ensures AfterLine(parts, st) == st
  {
    var after := AfterLine(parts, st);
    forall b: Bucket ensures after.rec.Get(b) == st.rec.Get(b) && after.seen.Get(b) == st.seen.Get(b) {
      RunBuckets(st, Actions(parts), b);
      FreshOfSeen(Values(Actions(parts), b), st.seen.Get(b));
    }
    RunKeepsOtherKeys(st, Actions(parts));
    assert after.rec.Get(IncludeDirs) == st.rec.Get(IncludeDirs) && after.rec.Get(LibraryDirs) == st.rec.Get(LibraryDirs);
    assert after.rec.Get(Libraries) == st.rec.Get(Libraries) && after.rec.Get(CompilerFlags) == st.rec.Get(CompilerFlags);
    assert after.rec.Get(Sources) == st.rec.Get(Sources) && after.rec.Get(Others) == st.rec.Get(Others);
    assert after.seen.Get(IncludeDirs) == st.seen.Get(IncludeDirs) && after.seen.Get(LibraryDirs) == st.seen.Get(LibraryDirs);
    assert after.seen.Get(Libraries) == st.seen.Get(Libraries) && after.seen.Get(CompilerFlags) == st.seen.Get(CompilerFlags);
    assert after.seen.Get(Sources) == st.seen.Get(Sources) && after.seen.Get(Others) == st.seen.Get(Others);
  }
}
