/**
 Nested configuration includes: a depth-first traversal of files that name each other in `[general] include`.

 Splitting an include line and expanding its patterns is given: a line is the list of its patterns, and the
 disk says which files each pattern names, in order.
 */
module Includes {
  import opened Wrappers

  type File(==, !new)
  type Pattern(==, !new)
  type Line = seq<Pattern>

  /** What reading a file does: it may fail to parse, and it may set the include line. */
  datatype Content = Content(parses: bool, includes: Option<Line>)

  datatype Disk = Disk(matches: map<Pattern, seq<File>>, content: map<File, Content>)
  {
    function Matches(p: Pattern): seq<File>
    {
      if p in matches then matches[p] else []
    }

    function Named(line: Line): seq<File>
    {
      if line == [] then [] else Matches(line[0]) + Named(line[1..])
    }

    /** Files some pattern names; traversals stay inside this finite set. */
    function All(): set<File>
    {
      set p, k | p in matches && 0 <= k < |matches[p]| :: matches[p][k]
    }

    predicate Parses(f: File)
    {
      f in content ==> content[f].parses
    }

    /** The include line after the option was emptied and `f` was read. */
    function LineOf(f: File): Line
    {
      if f in content && content[f].includes.Some? then content[f].includes.value else []
    }
  }

  function Set(s: seq<File>): set<File>
  {
    set f | f in s
  }

  lemma {:induction false} NamedIsKnown(d: Disk, line: Line)
    ensures forall f :: f in d.Named(line) ==> f in d.All()
  {
    if line != [] {
      NamedIsKnown(d, line[1..]);
      forall f | f in d.Matches(line[0]) ensures f in d.All() {
        var k :| 0 <= k < |d.Matches(line[0])| && d.Matches(line[0])[k] == f;
        assert line[0] in d.matches && d.matches[line[0]][k] == f;
      }
    }
  }

  /** The files of a line are those of its patterns, one pattern after another. */
  lemma {:induction false} NamedInOrder(d: Disk, p: Pattern, line: Line, more: Line)
    ensures d.Named([p]) == (if p in d.matches then d.matches[p] else [])
    ensures d.Named(line + more) == d.Named(line) + d.Named(more)
  {
    assert [p][1..] == [];
    if line == [] {
      assert line + more == more;
    } else {
      NamedInOrder(d, p, line[1..], more);
      assert (line + more)[1..] == line[1..] + more;
      Associate(d.Matches(line[0]), d.Named(line[1..]), d.Named(more));
    }
  }

  lemma StrictlySmaller(a: set<File>, b: set<File>, f: File)
    requires a <= b && f in b && f !in a
    ensures |a| < |b|
  {
    SubsetSize(a, b - {f});
  }

  lemma {:induction false} SubsetSize(a: set<File>, b: set<File>)
    requires a <= b
    ensures |a| <= |b|
  {
    if a != {} {
      var x :| x in a;
      SubsetSize(a - {x}, b - {x});
    }
  }

  /* ------------------------------------------------------ specification */

  /** Files read, in order, and whether the traversal finished without a parse error. */
  datatype Trace = Trace(files: seq<File>, ok: bool)

  /** The depth-first traversal of `pending`, skipping files that were seen before. */
  function Visit(d: Disk, pending: seq<File>, seen: set<File>): Trace
    decreases |d.All() - seen|, |pending|, 1
  {
    if pending == [] then Trace([], true)
    else if pending[0] in seen || pending[0] !in d.All() then Visit(d, pending[1..], seen)
    else VisitNew(d, pending[0], pending[1..], seen)
  }

  /** Reads a file that was not seen, then what it includes, then the rest. */
  function VisitNew(d: Disk, f: File, rest: seq<File>, seen: set<File>): Trace
    requires f in d.All() && f !in seen
    decreases |d.All() - seen|, |rest|, 0
  {
    if !d.Parses(f) then Trace([f], false)
    else
      StrictlySmaller(d.All() - (seen + {f}), d.All() - seen, f);
      var nested := Visit(d, d.Named(d.LineOf(f)), seen + {f});
      if !nested.ok then Trace([f] + nested.files, false)
      else
        StrictlySmaller(d.All() - (seen + {f} + Set(nested.files)), d.All() - seen, f);
        var later := Visit(d, rest, seen + {f} + Set(nested.files));
        Trace([f] + nested.files + later.files, later.ok)
  }

  /** A trace that goes on with more files, unless it has failed. */
  function After(d: Disk, first: Trace, more: seq<File>, seen: set<File>): Trace
  {
    if !first.ok then first
    else
      var later := Visit(d, more, seen + Set(first.files));
      Trace(first.files + later.files, later.ok)
  }

  /** A file and all that it includes. */
  function WithIncludes(d: Disk, f: File, seen: set<File>): Trace
  {
    if !d.Parses(f) then Trace([f], false)
    else
      var nested := Visit(d, d.Named(d.LineOf(f)), seen + {f});
      Trace([f] + nested.files, nested.ok)
  }

  /** Depth first: a file is followed by all that it includes before the next one, and a failure ends everything. */
  lemma DepthFirst(d: Disk, f: File, rest: seq<File>, seen: set<File>)
    requires f in d.All() && f !in seen
    ensures Visit(d, [f] + rest, seen) == After(d, WithIncludes(d, f, seen), rest, seen)
    ensures f in Set(WithIncludes(d, f, seen).files)
  {
    var nested := Visit(d, d.Named(d.LineOf(f)), seen + {f});
    assert ([f] + rest)[1..] == rest;
    assert seen + {f} + Set(nested.files) == seen + Set([f] + nested.files);
    assert f in [f] + nested.files;
  }

  /** One list of files after another. */
  lemma {:induction false} VisitConcat(d: Disk, a: seq<File>, b: seq<File>, seen: set<File>)
    ensures Visit(d, a + b, seen) == After(d, Visit(d, a, seen), b, seen)
    decreases |d.All() - seen|, |a|
  {
    if a == [] {
      assert a + b == b && seen + Set([]) == seen;
    } else {
      var f, rest := a[0], a[1..];
      assert a == [f] + rest && a + b == [f] + (rest + b) && (a + b)[0] == f && (a + b)[1..] == rest + b;
      if f in seen || f !in d.All() {
        VisitConcat(d, rest, b, seen);
      } else {
        var t := WithIncludes(d, f, seen);
        DepthFirst(d, f, rest, seen);
        DepthFirst(d, f, rest + b, seen);
        if t.ok {
          StrictlySmaller(d.All() - (seen + Set(t.files)), d.All() - seen, f);
          VisitConcat(d, rest, b, seen + Set(t.files));
          AfterAfter(d, t, Visit(d, rest, seen + Set(t.files)), b, seen);
        }
      }
    }
  }

  lemma AfterAfter(d: Disk, first: Trace, second: Trace, b: seq<File>, seen: set<File>)
    ensures var both := Trace(first.files + second.files, second.ok);
            var rest := After(d, second, b, seen + Set(first.files));
            Trace(first.files + rest.files, rest.ok) == After(d, both, b, seen)
  {
    SetOfConcat(first.files, second.files);
    assert seen + Set(first.files) + Set(second.files) == seen + Set(first.files + second.files);
    Associate(first.files, second.files, Visit(d, b, seen + Set(first.files + second.files)).files);
  }

  /** Every step of the path is included by the one before, the first by the line. */
  predicate Path(d: Disk, line: Line, p: seq<File>)
  {
    p != [] && p[0] in d.Named(line) && forall i :: 0 < i < |p| ==> p[i] in d.Named(d.LineOf(p[i - 1]))
  }

  ghost predicate Reachable(d: Disk, line: Line, f: File)
  {
    exists p :: Path(d, line, p) && p[|p| - 1] == f
  }

  predicate Distinct(s: seq<File>)
  {
    forall i, j :: 0 <= i < j < |s| ==> s[i] != s[j]
  }

  lemma SetOfConcat(a: seq<File>, b: seq<File>)
    ensures Set(a + b) == Set(a) + Set(b)
  {
  }

  lemma DistinctConcat(a: seq<File>, b: seq<File>)
    requires Distinct(a) && Distinct(b) && Set(a) !! Set(b)
    ensures Distinct(a + b)
  {
    forall i, j | 0 <= i < |a| && 0 <= j < |b| ensures a[i] != b[j] {
      assert a[i] in Set(a) && b[j] in Set(b);
    }
  }

  /** A traversal reads no file twice, none that was seen, and only known files. */
  lemma {:induction false} VisitReadsOnce(d: Disk, pending: seq<File>, seen: set<File>)
    ensures var t := Visit(d, pending, seen);
            Distinct(t.files) && Set(t.files) !! seen && Set(t.files) <= d.All()
    decreases |d.All() - seen|, |pending|
  {
    if pending == [] { return; }
    var f := pending[0];
    if f in seen || f !in d.All() {
      VisitReadsOnce(d, pending[1..], seen);
    } else if d.Parses(f) {
      StrictlySmaller(d.All() - (seen + {f}), d.All() - seen, f);
      VisitReadsOnce(d, d.Named(d.LineOf(f)), seen + {f});
      var nested := Visit(d, d.Named(d.LineOf(f)), seen + {f});
      DistinctConcat([f], nested.files);
      SetOfConcat([f], nested.files);
      if nested.ok {
        StrictlySmaller(d.All() - (seen + {f} + Set(nested.files)), d.All() - seen, f);
        VisitReadsOnce(d, pending[1..], seen + {f} + Set(nested.files));
        var rest := Visit(d, pending[1..], seen + {f} + Set(nested.files));
        DistinctConcat([f] + nested.files, rest.files);
        SetOfConcat([f] + nested.files, rest.files);
      }
    }
  }

  /** A traversal finishes exactly when every file it reads parses. */
  lemma {:induction false} VisitFailsOnBadFile(d: Disk, pending: seq<File>, seen: set<File>)
    ensures var t := Visit(d, pending, seen); t.ok <==> forall f :: f in t.files ==> d.Parses(f)
    decreases |d.All() - seen|, |pending|
  {
    if pending == [] { return; }
    var f := pending[0];
    if f in seen || f !in d.All() {
      VisitFailsOnBadFile(d, pending[1..], seen);
    } else if d.Parses(f) {
      StrictlySmaller(d.All() - (seen + {f}), d.All() - seen, f);
      VisitFailsOnBadFile(d, d.Named(d.LineOf(f)), seen + {f});
      var nested := Visit(d, d.Named(d.LineOf(f)), seen + {f});
      if nested.ok {
        StrictlySmaller(d.All() - (seen + {f} + Set(nested.files)), d.All() - seen, f);
        VisitFailsOnBadFile(d, pending[1..], seen + {f} + Set(nested.files));
      }
    } else {
      assert f in Visit(d, pending, seen).files;
    }
  }

  /** Every file of `fs` was seen before or is read. */
  predicate Covered(fs: seq<File>, seen: set<File>, files: seq<File>)
  {
    forall g :: g in fs ==> g in seen || g in files
  }

  /** A finished traversal has seen all it was given, and all that the files it read include. */
  lemma {:induction false} VisitCloses(d: Disk, pending: seq<File>, seen: set<File>)
    requires Set(pending) <= d.All() && Visit(d, pending, seen).ok
    ensures var files := Visit(d, pending, seen).files;
            Covered(pending, seen, files) && forall f :: f in files ==> Covered(d.Named(d.LineOf(f)), seen, files)
    decreases |d.All() - seen|, |pending|
  {
    if pending == [] { return; }
    var f := pending[0];
    assert pending == [f] + pending[1..] && f in Set(pending);
    if f in seen {
      VisitCloses(d, pending[1..], seen);
      return;
    }
    var next := d.Named(d.LineOf(f));
    StrictlySmaller(d.All() - (seen + {f}), d.All() - seen, f);
    NamedIsKnown(d, d.LineOf(f));
    VisitCloses(d, next, seen + {f});
    var nested := Visit(d, next, seen + {f});
    StrictlySmaller(d.All() - (seen + {f} + Set(nested.files)), d.All() - seen, f);
    VisitCloses(d, pending[1..], seen + {f} + Set(nested.files));
    var rest := Visit(d, pending[1..], seen + {f} + Set(nested.files));
    var files := [f] + nested.files + rest.files;
    assert Visit(d, pending, seen) == VisitNew(d, f, pending[1..], seen) == Trace(files, true);
    assert Covered(pending, seen, files);
    forall g | g in files ensures Covered(d.Named(d.LineOf(g)), seen, files) {
      if g in nested.files { assert Covered(d.Named(d.LineOf(g)), seen + {f}, nested.files); }
      if g in rest.files { assert Covered(d.Named(d.LineOf(g)), seen + {f} + Set(nested.files), rest.files); }
    }
  }

  lemma ReachStep(d: Disk, line: Line, f: File, g: File)
    requires Reachable(d, line, f) && g in d.Named(d.LineOf(f))
    ensures Reachable(d, line, g)
  {
    var p :| Path(d, line, p) && p[|p| - 1] == f;
    assert Path(d, line, p + [g]) && (p + [g])[|p + [g]| - 1] == g;
  }

  /** A traversal that starts among reachable files stays among them. */
  lemma {:induction false} VisitStaysReachable(d: Disk, line: Line, pending: seq<File>, seen: set<File>)
    requires forall f :: f in pending ==> Reachable(d, line, f)
    ensures forall f :: f in Visit(d, pending, seen).files ==> Reachable(d, line, f)
    decreases |d.All() - seen|, |pending|
  {
    if pending == [] { return; }
    var f := pending[0];
    if f in seen || f !in d.All() {
      VisitStaysReachable(d, line, pending[1..], seen);
    } else if d.Parses(f) {
      var next := d.Named(d.LineOf(f));
      forall g | g in next ensures Reachable(d, line, g) { ReachStep(d, line, f, g); }
      StrictlySmaller(d.All() - (seen + {f}), d.All() - seen, f);
      VisitStaysReachable(d, line, next, seen + {f});
      var nested := Visit(d, next, seen + {f});
      if nested.ok {
        StrictlySmaller(d.All() - (seen + {f} + Set(nested.files)), d.All() - seen, f);
        VisitStaysReachable(d, line, pending[1..], seen + {f} + Set(nested.files));
      }
    }
  }

  /** A list that holds the files of the line and is closed under including holds every path. */
  lemma {:induction false} ClosedHoldsPaths(d: Disk, line: Line, s: seq<File>, p: seq<File>)
    requires forall g :: g in d.Named(line) ==> g in s
    requires forall f, g :: f in s && g in d.Named(d.LineOf(f)) ==> g in s
    requires Path(d, line, p)
    ensures p[|p| - 1] in s
    decreases |p|
  {
    if |p| > 1 {
      assert Path(d, line, p[..|p| - 1]);
      ClosedHoldsPaths(d, line, s, p[..|p| - 1]);
      assert p[|p| - 1] in d.Named(d.LineOf(p[|p| - 2]));
    }
  }

  /* ----------------------------------------------------------- theorems */

  /**
   Starting with nothing seen, the traversal reads each file at most once; when it finishes it has read
   exactly the files reachable from the line, and it finishes exactly when all reachable files that exist parse.
   */
  lemma TraversalReadsReachable(d: Disk, line: Line)
    ensures var t := Visit(d, d.Named(line), {});
            && Distinct(t.files)
            && (t.ok ==> forall f :: f in t.files <==> Reachable(d, line, f))
            && (t.ok <==> forall f :: Reachable(d, line, f) && f in d.content ==> d.content[f].parses)
  {
    var start := d.Named(line);
    var t := Visit(d, start, {});
    VisitReadsOnce(d, start, {});
    VisitFailsOnBadFile(d, start, {});
    forall f | f in start ensures Reachable(d, line, f) {
      assert Path(d, line, [f]) && [f][|[f]| - 1] == f;
    }
    VisitStaysReachable(d, line, start, {});
    if t.ok {
      FinishedReadsAll(d, line);
    }
  }

  lemma FinishedReadsAll(d: Disk, line: Line)
    requires Visit(d, d.Named(line), {}).ok
    ensures forall f :: Reachable(d, line, f) ==> f in Visit(d, d.Named(line), {}).files
  {
    var files := Visit(d, d.Named(line), {}).files;
    NamedIsKnown(d, line);
    VisitCloses(d, d.Named(line), {});
    forall f, g | f in files && g in d.Named(d.LineOf(f)) ensures g in files {
      assert Covered(d.Named(d.LineOf(f)), {}, files);
    }
    forall f | Reachable(d, line, f) ensures f in files {
      var p :| Path(d, line, p) && p[|p| - 1] == f;
      ClosedHoldsPaths(d, line, files, p);
    }
  }

  /* ------------------------------------------------------------- parser */

  /** The part of `ConfigParser` that follows includes; `log` records the files read. */
  class ConfigParser {
    const disk: Disk
    var included: set<File>
    var includeOption: Line
    var loadDirStack: seq<File> // files whose directories are being loaded, innermost last
    ghost var log: seq<File>

    constructor (disk: Disk)
      ensures this.disk == disk && included == {} && includeOption == [] && loadDirStack == [] && log == []
    {
      this.disk := disk;
      included, includeOption, loadDirStack, log := {}, [], [], [];
    }

    /** Parses a file into the configuration; a file that does not parse raises. */
    method Read(f: File) returns (ok: bool)
      modifies this`includeOption, this`log
      ensures ok == disk.Parses(f) && log == old(log) + [f]
      ensures includeOption ==
              if ok && f in disk.content && disk.content[f].includes.Some? then disk.content[f].includes.value
              else old(includeOption)
    {
      log := log + [f];
      ok := f in disk.content ==> disk.content[f].parses;
      if ok && f in disk.content && disk.content[f].includes.Some? {
        includeOption := disk.content[f].includes.value;
      }
    }

    /** `_traverse_includes`; `ok` is false when reading some file raised. */
    method TraverseIncludes(includes: Line) returns (ok: bool)
      modifies this
      ensures var t := Visit(disk, disk.Named(includes), old(included));
              ok == t.ok && log == old(log) + t.files && included == old(included) + Set(t.files)
      ensures loadDirStack == old(loadDirStack)
      decreases |disk.All() - included|, 2
    {
      ghost var whole := Visit(disk, disk.Named(includes), included);
      ghost var done: seq<File> := [];
      assert includes[0..] == includes;
      var i := 0;
      while i < |includes|
        invariant 0 <= i <= |includes| && loadDirStack == old(loadDirStack)
        invariant log == old(log) + done && included == old(included) + Set(done)
        invariant Remains(disk, disk.Named(includes[i..]), included, done, whole)
      {
        NamedNext(disk, includes, i);
        SubsetSize(disk.All() - included, disk.All() - old(included));
        ghost var more;
        ok, more := IncludePattern(includes[i], disk.Named(includes[i + 1..]), done, whole);
        Extend(old(log), old(included), done, more);
        done := done + more;
        if !ok { return; }
        i := i + 1;
      }
      ok := true;
    }

    /** The inner loop: the files that one pattern names. */
    method IncludePattern(pattern: Pattern, ghost later: seq<File>, ghost done0: seq<File>, ghost whole: Trace)
      returns (ok: bool, ghost more: seq<File>)
      requires Remains(disk, disk.Matches(pattern) + later, included, done0, whole)
      modifies this
      ensures loadDirStack == old(loadDirStack)
      ensures log == old(log) + more && included == old(included) + Set(more)
      ensures if ok then Remains(disk, later, included, done0 + more, whole) else whole == Trace(done0 + more, false)
      decreases |disk.All() - included|, 1
    {
      more := [];
      var files := disk.Matches(pattern);
      PatternIsKnown(disk, pattern);
      assert files[0..] == files && done0 + [] == done0;
      var k := 0;
      while k < |files|
        invariant 0 <= k <= |files| && loadDirStack == old(loadDirStack)
        invariant log == old(log) + more && included == old(included) + Set(more)
        invariant Remains(disk, files[k..] + later, included, done0 + more, whole)
      {
        var f := files[k];
        ghost var rest := files[k + 1..] + later;
        HeadOf(files, k, later);
        if f in included {
          RemainsSkip(disk, f, rest, included, done0 + more, whole);
        } else {
          SubsetSize(disk.All() - included, disk.All() - old(included));
          ghost var next;
          ok, next := IncludeFile(f, rest, done0 + more, whole);
          Extend(old(log), old(included), more, next);
          Associate(done0, more, next);
          more := more + next;
          if !ok { return; }
        }
        k := k + 1;
      }
      assert files[k..] + later == later;
      ok := true;
    }

    /** The rest of the loop body: reads a file that was not included yet and follows its includes. */
    method IncludeFile(f: File, ghost rest: seq<File>, ghost done: seq<File>, ghost whole: Trace)
      returns (ok: bool, ghost more: seq<File>)
      requires f !in included && f in disk.All()
      requires Remains(disk, [f] + rest, included, done, whole)
      modifies this
      ensures loadDirStack == old(loadDirStack)
      ensures log == old(log) + more && included == old(included) + Set(more)
      ensures if ok then Remains(disk, rest, included, done + more, whole) else whole == Trace(done + more, false)
      decreases |disk.All() - included|, 0
    {
      ghost var seen := included;
      StrictlySmaller(disk.All() - (seen + {f}), disk.All() - seen, f);
      included := included + {f};
      includeOption := [];
      loadDirStack := loadDirStack + [f];
      ok := Read(f);
      loadDirStack := loadDirStack[..|loadDirStack| - 1];
      if ok {
        ghost var nested := Visit(disk, disk.Named(disk.LineOf(f)), seen + {f});
        more := [f] + nested.files;
        ok := TraverseIncludes(includeOption);
        Associate(old(log), [f], nested.files);
        RemainsNested(disk, f, rest, seen, done, whole);
      } else {
        more := [f];
        RemainsBroken(disk, f, rest, seen, done, whole);
      }
    }

    /** `_load`: the configuration file itself, if there is one, then everything it includes. */
    method Load(configFile: Option<File>) returns (r: LoadResult)
      requires includeOption == [] && loadDirStack == [] && log == []
      modifies this
      ensures r.Exited? <==> configFile.Some? && configFile.value !in disk.content
      ensures !r.Exited? ==>
                var t := LoadTrace(disk, configFile); log == t.files && (r.Loaded? <==> t.ok)
      ensures loadDirStack == []
    {
      if configFile.Some? {
        if configFile.value !in disk.content { return Exited; }
        loadDirStack := loadDirStack + [configFile.value];
        var ok := Read(configFile.value);
        loadDirStack := loadDirStack[..|loadDirStack| - 1];
        if !ok { return Failed; }
      }
      var includes := includeOption;
      included := {};
      var ok := TraverseIncludes(includes);
      return if ok then Loaded else Failed;
    }
  }

  /** How `_load` ends: loaded, a file that does not parse, or no configuration file. */
  datatype LoadResult = Loaded | Failed | Exited

  /** What was read so far, followed by a traversal of the rest, is the whole traversal. */
  ghost predicate Remains(d: Disk, rest: seq<File>, seen: set<File>, done: seq<File>, whole: Trace)
  {
    var t := Visit(d, rest, seen);
    whole == Trace(done + t.files, t.ok)
  }

  lemma NamedNext(d: Disk, includes: Line, i: nat)
    requires i < |includes|
    ensures d.Named(includes[i..]) == d.Matches(includes[i]) + d.Named(includes[i + 1..])
  {
    assert includes[i..][1..] == includes[i + 1..];
  }

  lemma Extend(log: seq<File>, seen: set<File>, done: seq<File>, more: seq<File>)
    ensures log + done + more == log + (done + more) && seen + Set(done) + Set(more) == seen + Set(done + more)
  {
    SetOfConcat(done, more);
  }

  lemma PatternIsKnown(d: Disk, p: Pattern)
    ensures forall k :: 0 <= k < |d.Matches(p)| ==> d.Matches(p)[k] in d.All()
  {
    forall k | 0 <= k < |d.Matches(p)| ensures d.Matches(p)[k] in d.All() {
      assert p in d.matches && d.matches[p][k] == d.Matches(p)[k];
    }
  }

  lemma RemainsSkip(d: Disk, f: File, rest: seq<File>, seen: set<File>, done: seq<File>, whole: Trace)
    requires Remains(d, [f] + rest, seen, done, whole) && f in seen
    ensures Remains(d, rest, seen, done, whole)
  {
    assert ([f] + rest)[1..] == rest;
  }

  lemma HeadOf(files: seq<File>, k: nat, later: seq<File>)
    requires k < |files|
    ensures files[k..] + later == [files[k]] + (files[k + 1..] + later)
  {
  }

  lemma Associate(a: seq<File>, b: seq<File>, c: seq<File>)
    ensures (a + b) + c == a + (b + c)
  {
  }

  lemma RemainsBroken(d: Disk, f: File, rest: seq<File>, seen: set<File>, done: seq<File>, whole: Trace)
    requires Remains(d, [f] + rest, seen, done, whole) && f in d.All() && f !in seen && !d.Parses(f)
    ensures whole == Trace(done + [f], false)
    ensures seen + {f} == seen + Set([f])
  {
    assert ([f] + rest)[1..] == rest;
    assert Visit(d, [f] + rest, seen) == VisitNew(d, f, rest, seen);
  }

  /** How a traversal goes on with a file that was not seen and parses. */
  lemma RemainsNested(d: Disk, f: File, rest: seq<File>, seen: set<File>, done: seq<File>, whole: Trace)
    requires Remains(d, [f] + rest, seen, done, whole) && f in d.All() && f !in seen && d.Parses(f)
    ensures var nested := Visit(d, d.Named(d.LineOf(f)), seen + {f});
            var more := [f] + nested.files;
            && seen + {f} + Set(nested.files) == seen + Set(more)
            && if nested.ok then Remains(d, rest, seen + Set(more), done + more, whole)
               else whole == Trace(done + more, false)
  {
    assert ([f] + rest)[1..] == rest;
    var nested := Visit(d, d.Named(d.LineOf(f)), seen + {f});
    var more := [f] + nested.files;
    assert seen + {f} + Set(nested.files) == seen + Set(more);
    assert Visit(d, [f] + rest, seen) == VisitNew(d, f, rest, seen);
    if nested.ok {
      Associate(done, more, Visit(d, rest, seen + Set(more)).files);
    }
  }

  /** The files `_load` reads, in order. */
  function LoadTrace(d: Disk, configFile: Option<File>): Trace
  {
    if configFile.None? then Trace([], true)
    else if !d.Parses(configFile.value) then Trace([configFile.value], false)
    else
      var t := Visit(d, d.Named(d.LineOf(configFile.value)), {});
      Trace([configFile.value] + t.files, t.ok)
  }

  /**
   The configuration file is not entered among the included ones: a successful load reads it a second time
   exactly when it is reachable from its own include line, and every other file at most once.
   */
  lemma ConfigFileReadTwice(d: Disk, main: File)
    requires LoadTrace(d, Some(main)).ok
    ensures var files := LoadTrace(d, Some(main)).files;
            && multiset(files)[main] == (if Reachable(d, d.LineOf(main), main) then 2 else 1)
            && forall f :: f != main ==> multiset(files)[f] == if Reachable(d, d.LineOf(main), f) then 1 else 0
  {
    var t := Visit(d, d.Named(d.LineOf(main)), {});
    TraversalReadsReachable(d, d.LineOf(main));
    forall f ensures multiset(t.files)[f] == if f in t.files then 1 else 0 {
      DistinctCounts(t.files, f);
    }
    assert multiset([main] + t.files) == multiset{main} + multiset(t.files);
  }

  lemma {:induction false} DistinctCounts(s: seq<File>, f: File)
    requires Distinct(s)
    ensures multiset(s)[f] == if f in s then 1 else 0
  {
    if s != [] {
      DistinctCounts(s[1..], f);
      assert s == [s[0]] + s[1..];
    }
  }
}
