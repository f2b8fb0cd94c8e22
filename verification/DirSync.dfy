/**
 One-way synchronisation of directory trees: copy new and changed files, then remove what the source lacks.

 A tree is a set of directory paths and a map from file paths to contents; paths are relative to the root,
 whose path is empty.  Errors the operating system would raise are modelled by a result.
 */
module DirSync {

  type Name(==, !new)
  type Content(==, !new)
  type Path = seq<Name>

  datatype Tree = Tree(dirs: set<Path>, files: map<Path, Content>)
  {
    predicate Exists(p: Path)
    {
      p in dirs || p in files
    }

    /** No path is both a directory and a file, the root is no file, and every entry lies in a directory. */
    predicate Valid()
    {
      && dirs !! files.Keys
      && [] !in files
      && (forall p {:trigger Parent(p)} :: p in dirs && p != [] ==> Parent(p) in dirs)
      && (forall p {:trigger Parent(p)} :: p in files ==> Parent(p) in dirs)
    }
  }

  function Parent(p: Path): Path
  {
    if p == [] then [] else p[..|p| - 1]
  }

  /** All ancestors of an entry are directories. */
  lemma {:induction false} PrefixIsDir(t: Tree, p: Path, k: nat)
    requires t.Valid() && t.Exists(p) && k < |p|
    ensures p[..k] in t.dirs
    decreases |p|
  {
    assert Parent(p) in t.dirs;
    if k < |p| - 1 {
      PrefixIsDir(t, Parent(p), k);
      assert Parent(p)[..k] == p[..k];
    }
  }

  /** No path is a file on one side and a directory on the other. */
  predicate SameKinds(a: Tree, b: Tree)
  {
    a.dirs !! b.files.Keys && a.files.Keys !! b.dirs
  }

  /** What the target should become; a source that does not exist counts as empty. */
  function Goal(source: Tree): Tree
  {
    Tree(source.dirs + {[]}, source.files)
  }

  /** A source file that has to be written: new, or with another content. */
  predicate Outdated(target: Tree, source: Tree, p: Path)
  {
    p in source.files && (p !in target.files || target.files[p] != source.files[p])
  }

  /** The files of the target, and those written, once the source files in `synced` were dealt with. */
  ghost predicate Progress(before: Tree, source: Tree, synced: set<Path>, files: map<Path, Content>,
                     written0: multiset<Path>, written: multiset<Path>)
  {
    && synced <= source.files.Keys
    && (forall p :: p in files <==> p in before.files || p in synced)
    && (forall p :: p in files ==> files[p] == if p in synced then source.files[p] else before.files[p])
    && (forall p :: written[p] == written0[p] + if p in synced && Outdated(before, source, p) then 1 else 0)
  }

  /** The directories outside `todo` are there, and exactly their files are dealt with. */
  ghost predicate CopiedSoFar(before: Tree, source: Tree, todo: set<Path>, synced: set<Path>, now: Tree,
                              written0: multiset<Path>, written: multiset<Path>)
  {
    && (forall p :: p in source.dirs && p !in todo ==> p in now.dirs)
    && (forall p :: p in now.dirs ==> p in before.dirs || p in source.dirs)
    && Progress(before, source, synced, now.files, written0, written)
    && forall p :: p in synced <==> p in source.files && Parent(p) !in todo
  }

  lemma CopyAdvances(before: Tree, source: Tree, todo: set<Path>, d: Path, dirs0: set<Path>, synced0: set<Path>,
                     synced: set<Path>, now: Tree, written0: multiset<Path>, written: multiset<Path>)
    requires d in todo && dirs0 <= now.dirs && d in now.dirs
    requires forall p :: p in source.dirs && p !in todo ==> p in dirs0
    requires forall p :: p in now.dirs ==> p in before.dirs || p in source.dirs
    requires forall p :: p in synced0 <==> p in source.files && Parent(p) !in todo
    requires Progress(before, source, synced, now.files, written0, written)
    requires forall p :: p in synced <==> p in synced0 || (p in source.files && Parent(p) == d)
    ensures CopiedSoFar(before, source, todo - {d}, synced, now, written0, written)
  {
  }

  lemma ProgressStep(before: Tree, source: Tree, synced: set<Path>, files: map<Path, Content>,
                     written0: multiset<Path>, written: multiset<Path>, p: Path)
    requires Progress(before, source, synced, files, written0, written) && p in source.files && p !in synced
    ensures Outdated(before, source, p) <==> p !in files || files[p] != source.files[p]
    ensures Progress(before, source, synced + {p}, files[p := source.files[p]], written0,
                     written + if Outdated(before, source, p) then multiset{p} else multiset{})
  {
  }

  class Target {
    var dirs: set<Path>
    var files: map<Path, Content>
    ghost var written: multiset<Path> // files written so far, once for each time

    constructor (dirs: set<Path>, files: map<Path, Content>)
      ensures this.dirs == dirs && this.files == files && written == multiset{}
    {
      this.dirs, this.files, written := dirs, files, multiset{};
    }

    function Here(): Tree
      reads this
    {
      Tree(dirs, files)
    }

    /** `os.makedirs`: fails when some component is a file. */
    method MakeDirs(p: Path) returns (ok: bool)
      requires Here().Valid()
      modifies this`dirs
      ensures Here().Valid()
      ensures ok <==> forall k :: 0 <= k <= |p| ==> p[..k] !in files
      ensures if ok then forall q :: q in dirs <==> q in old(dirs) || q <= p else dirs == old(dirs)
    {
      ok := forall k :: 0 <= k <= |p| ==> p[..k] !in files;
      if ok {
        dirs := dirs + set k | 0 <= k <= |p| :: p[..k];
        forall q | q <= p ensures q in dirs { assert q == p[..|q|]; }
        forall q | q in dirs && q != [] ensures Parent(q) in dirs {
          if q !in old(dirs) { assert Parent(q) == p[..|q| - 1]; }
        }
      }
    }

    /** `shutil.copy2`: a destination that is a directory receives a file of the same name. */
    method Copy(content: Content, p: Path) returns (ok: bool)
      requires Here().Valid() && p != []
      modifies this`files, this`written
      ensures Here().Valid() && old(files).Keys <= files.Keys
      ensures p !in dirs && Parent(p) in dirs ==>
              ok && files == old(files)[p := content] && written == old(written) + multiset{p}
    {
      var dest := if p in dirs then p + [p[|p| - 1]] else p;
      if dest in dirs || Parent(dest) !in dirs { return false; }
      files := files[dest := content];
      written := written + multiset{dest};
      ok := true;
    }

    /** Copies one file unless the target has it with the same content. */
    method SyncFile(source: Tree, p: Path) returns (ok: bool)
      requires source.Valid() && Here().Valid() && p in source.files
      modifies this
      ensures Here().Valid() && dirs == old(dirs) && old(files).Keys <= files.Keys
      ensures p !in dirs && Parent(p) in dirs ==>
                && ok && files == old(files)[p := source.files[p]]
                && written == old(written) + (if Outdated(old(Here()), source, p) then multiset{p} else multiset{})
    {
      if p in files && files[p] == source.files[p] {
        assert files == files[p := source.files[p]];
        return true;
      }
      ok := Copy(source.files[p], p);
    }

    /** The files of one source directory. */
    method SyncDirectory(source: Tree, d: Path, ghost synced0: set<Path>, ghost before: Tree,
                         ghost written0: multiset<Path>)
      returns (ok: bool, ghost synced: set<Path>)
      requires source.Valid() && Here().Valid()
      requires SameKinds(before, source) ==>
                 && d in dirs && dirs <= before.dirs + source.dirs
                 && Progress(before, source, synced0, files, written0, written)
                 && forall p :: p in synced0 ==> Parent(p) != d
      modifies this
      ensures Here().Valid() && dirs == old(dirs) && old(files).Keys <= files.Keys
      ensures SameKinds(before, source) ==>
                && ok && Progress(before, source, synced, files, written0, written)
                && forall p :: p in synced <==> p in synced0 || (p in source.files && Parent(p) == d)
    {
      synced := synced0;
      var names := set p | p in source.files && Parent(p) == d;
      while names != {}
        invariant names <= source.files.Keys
        invariant forall p :: p in names ==> Parent(p) == d
        invariant Here().Valid() && dirs == old(dirs) && old(files).Keys <= files.Keys
        invariant SameKinds(before, source) ==>
                    && synced !! names && Progress(before, source, synced, files, written0, written)
                    && forall p :: p in synced || p in names <==> p in synced0 || (p in source.files && Parent(p) == d)
        decreases |names|
      {
        var p :| p in names;
        if SameKinds(before, source) { ProgressStep(before, source, synced, files, written0, written, p); }
        ok := SyncFile(source, p);
        if !ok { return; }
        names := names - {p};
        synced := synced + {p};
      }
      ok := true;
    }

    /** Step 1: walks through the source and creates what is missing or changed in the target. */
    method CopyPass(source: Tree) returns (ok: bool)
      requires source.Valid() && Here().Valid() && [] in dirs
      modifies this
      ensures Here().Valid() && old(dirs) <= dirs && old(files).Keys <= files.Keys
      ensures SameKinds(old(Here()), source) ==>
                && ok && dirs == old(dirs) + source.dirs
                && Progress(old(Here()), source, source.files.Keys, files, old(written), written)
    {
      ghost var before := Here();
      ghost var same := SameKinds(before, source);
      ghost var synced: set<Path> := {};
      var todo := source.dirs;
      while todo != {}
        invariant todo <= source.dirs && Here().Valid() && before.dirs <= dirs && before.files.Keys <= files.Keys
        invariant same ==> CopiedSoFar(before, source, todo, synced, Here(), old(written), written)
        decreases |todo|
      {
        var d :| d in todo;
        ghost var reached, was := dirs, synced;
        ok := EnsureDir(source, d, before);
        if !ok { return; }
        ok, synced := SyncDirectory(source, d, synced, before, old(written));
        if !ok { return; }
        if same { CopyAdvances(before, source, todo, d, reached, was, synced, Here(), old(written), written); }
        todo := todo - {d};
      }
      ok := true;
    }

    /** Creates the target directory of a source directory unless something of that name is there. */
    method EnsureDir(source: Tree, d: Path, ghost before: Tree) returns (ok: bool)
      requires source.Valid() && Here().Valid() && d in source.dirs
      modifies this`dirs
      ensures Here().Valid() && old(dirs) <= dirs
      ensures SameKinds(before, source) && files.Keys <= before.files.Keys + source.files.Keys ==>
                ok && d in dirs && dirs <= old(dirs) + source.dirs
    {
      forall k | 0 <= k < |d| ensures d[..k] in source.dirs { PrefixIsDir(source, d, k); }
      forall q | q <= d ensures q in source.dirs {
        assert q == if |q| == |d| then d else d[..|q|];
      }
      ok := true;
      if d !in dirs && d !in files {
        ok := MakeDirs(d);
      }
    }

    /** `os.remove` of an existing file. */
    method Remove(p: Path)
      requires p in files
      modifies this`files
      ensures forall q :: q in files <==> q in old(files) && q != p
      ensures forall q :: q in files ==> files[q] == old(files)[q]
    {
      files := files - {p};
    }

    /** `shutil.rmtree` of an existing directory. */
    method RemoveTree(p: Path)
      requires p in dirs
      modifies this`dirs, this`files
      ensures forall q :: q in dirs <==> q in old(dirs) && !(p <= q)
      ensures forall q :: q in files <==> q in old(files) && !(p <= q)
      ensures forall q :: q in files ==> files[q] == old(files)[q]
    {
      dirs := set q | q in dirs && !(p <= q);
      files := map q | q in files && !(p <= q) :: files[q];
    }

    /** Step 2, files: those that the walk listed in `d` and the source lacks are removed. */
    method PruneFiles(source: Tree, listing: Tree, d: Path, ghost checked0: set<Path>)
      returns (ghost checked: set<Path>)
      requires listing.Valid() && Pruned(listing, source, checked0, Here())
      requires forall q :: q in checked0 ==> !(q <= d) && Parent(q) != d
      modifies this`files
      ensures Pruned(listing, source, checked, Here())
      ensures forall q :: q in checked <==> q in checked0 || (q in listing.files && Parent(q) == d)
    {
      checked := checked0;
      var filenames := set p | p in listing.files && Parent(p) == d;
      ghost var all := filenames;
      while filenames != {}
        invariant filenames <= all && checked == checked0 + (all - filenames)
        invariant Pruned(listing, source, checked, Here())
        decreases |filenames|
      {
        var p :| p in filenames;
        ghost var now := Here();
        UntouchedSoFar(source, d, p, checked0, checked);
        if !source.Exists(p) {
          Remove(p);
        }
        CheckFile(listing, source, checked, now, Here(), p);
        MoveOver(checked0, all, filenames, p);
        filenames := filenames - {p};
        checked := checked + {p};
      }
    }

    /** Step 2, directories: the same for listed subdirectories, which go with all they hold. */
    method PruneSubdirs(source: Tree, listing: Tree, d: Path, ghost checked0: set<Path>)
      returns (ghost checked: set<Path>)
      requires listing.Valid() && Pruned(listing, source, checked0, Here())
      requires forall q :: q in checked0 ==> !(q <= d)
      requires forall q :: q in checked0 && q in listing.dirs ==> Parent(q) != d
      modifies this`dirs, this`files
      ensures Pruned(listing, source, checked, Here())
      ensures forall q :: q in checked <==> q in checked0 || (q in listing.dirs && q != [] && Parent(q) == d)
    {
      checked := checked0;
      var dirnames := set p | p in listing.dirs && p != [] && Parent(p) == d;
      ghost var all := dirnames;
      while dirnames != {}
        invariant dirnames <= all && checked == checked0 + (all - dirnames)
        invariant Pruned(listing, source, checked, Here())
        decreases |dirnames|
      {
        var p :| p in dirnames;
        UntouchedSoFar(source, d, p, checked0, checked);
        ghost var now := Here();
        if !source.Exists(p) {
          RemoveTree(p);
        }
        CheckDir(listing, source, checked, now, Here(), p);
        MoveOver(checked0, all, dirnames, p);
        dirnames := dirnames - {p};
        checked := checked + {p};
      }
    }

    /** Step 2: walks the target bottom-up and removes what the source does not have. */
    method DeletePass(source: Tree)
      requires source.Valid() && Here().Valid()
      modifies this`dirs, this`files
      ensures Kept(source, old(Here()), Here())
    {
      var listing := Here();
      ghost var checked: set<Path> := {};
      var todo := listing.dirs;
      NothingChecked(listing, source);
      while todo != {}
        invariant Walked(listing, todo, checked) && Pruned(listing, source, checked, Here())
        decreases |todo|
      {
        DeepestExists(todo);
        var d :| d in todo && forall e :: e in todo ==> !(d < e);
        UncheckedAncestors(listing, todo, checked, d);
        ghost var before := checked;
        checked := PruneFiles(source, listing, d, checked);
        checked := PruneSubdirs(source, listing, d, checked);
        WalkAdvances(listing, todo, d, before, checked);
        todo := todo - {d};
      }
      AllChecked(listing, source, checked, Here());
    }

    /** `synchronize_dirs`; `ok` is false when some operation raised. */
    method SynchronizeDirs(source: Tree) returns (ok: bool)
      requires source.Valid() && Here().Valid()
      modifies this
      ensures (ok && Here() == Goal(source)) <==> SameKinds(old(Here()), Goal(source))
      ensures SameKinds(old(Here()), Goal(source)) ==>
                forall p :: written[p] == old(written)[p] + if Outdated(old(Here()), source, p) then 1 else 0
    {
      ghost var before := Here();
      ok := true;
      if [] !in dirs {
        ok := MakeDirs([]);
      }
      ghost var rooted := Here();
      ok := CopyPass(source);
      if !ok { return; }
      ghost var copied := Here();
      DeletePass(source);
      if SameKinds(before, Goal(source)) {
        GoalReached(rooted, source, copied, Here(), old(written), written);
      } else {
        ConflictStays(before, source, copied, Here());
      }
    }

    /** Two runs in a row: the second one changes nothing and writes no file. */
    method SynchronizeTwice(source: Tree) returns (ok: bool)
      requires source.Valid() && Here().Valid() && SameKinds(Here(), Goal(source)) && written == multiset{}
      modifies this
      ensures ok && Here() == Goal(source)
      ensures forall p :: written[p] == if Outdated(old(Here()), source, p) then 1 else 0
    {
      ok := SynchronizeDirs(source);
      ok := SynchronizeDirs(source);
    }
  }

  /** Some component of `p` was looked up in the source and is not there. */
  predicate Doomed(source: Tree, checked: set<Path>, p: Path)
  {
    exists k :: 0 < k <= |p| && p[..k] in checked && !source.Exists(p[..k])
  }

  /** What is left of `was` when the entries in `checked` were looked up in the source. */
  ghost predicate Pruned(was: Tree, source: Tree, checked: set<Path>, now: Tree)
  {
    && (forall p :: p in now.dirs <==> p in was.dirs && !Doomed(source, checked, p))
    && (forall p :: p in now.files <==> p in was.files && !Doomed(source, checked, p))
    && (forall p :: p in now.files ==> now.files[p] == was.files[p])
  }

  /** What the second step leaves of the outcome of the first. */
  ghost predicate Kept(source: Tree, copied: Tree, now: Tree)
  {
    && (forall p :: p in now.dirs <==> p in copied.dirs && (p == [] || source.Exists(p)))
    && (forall p :: p in now.files <==> p in copied.files && source.Exists(p))
    && (forall p :: p in now.files ==> now.files[p] == copied.files[p])
  }

  lemma GoalReached(before: Tree, source: Tree, copied: Tree, now: Tree, written0: multiset<Path>,
                    written: multiset<Path>)
    requires source.Valid() && before.Valid() && [] in before.dirs && SameKinds(before, source)
    requires copied.dirs == before.dirs + source.dirs
    requires Progress(before, source, source.files.Keys, copied.files, written0, written) && Kept(source, copied, now)
    ensures now == Goal(source)
  {
    forall p ensures p in now.dirs <==> p in Goal(source).dirs {}
    forall p ensures p in now.files <==> p in source.files {}
    assert now.dirs == Goal(source).dirs;
    assert now.files == source.files;
  }

  lemma ConflictStays(before: Tree, source: Tree, copied: Tree, now: Tree)
    requires source.Valid() && copied.Valid() && !SameKinds(before, Goal(source))
    requires before.dirs <= copied.dirs && before.files.Keys <= copied.files.Keys && Kept(source, copied, now)
    requires [] !in before.files
    ensures now != Goal(source)
  {
    if p :| p in before.dirs && p in source.files {
      assert p in now.dirs && p != [];
    } else {
      var p :| p in before.files && p in source.dirs;
      assert p in now.files;
    }
  }

  /** A bottom-up walk has looked up exactly the entries of the directories it has left. */
  ghost predicate Walked(listing: Tree, todo: set<Path>, checked: set<Path>)
  {
    && todo <= listing.dirs
    && (forall d, e :: d in listing.dirs && d !in todo && e in todo ==> !(d < e))
    && (forall q :: q in checked <==> q != [] && listing.Exists(q) && Parent(q) !in todo)
  }

  lemma WalkAdvances(listing: Tree, todo: set<Path>, d: Path, before: set<Path>, after: set<Path>)
    requires Walked(listing, todo, before) && d in todo && forall e :: e in todo ==> !(d < e)
    requires forall q :: q in after <==> q in before || (q != [] && listing.Exists(q) && Parent(q) == d)
    ensures Walked(listing, todo - {d}, after)
  {
  }

  /** A bottom-up walk has not looked up any component of a directory that it has not reached. */
  lemma UncheckedAncestors(listing: Tree, todo: set<Path>, checked: set<Path>, d: Path)
    requires listing.Valid() && d in todo && Walked(listing, todo, checked)
    ensures forall q :: q in checked ==> !(q <= d) && Parent(q) != d
  {
    forall q | q in checked ensures !(q <= d) {
      assert Parent(q) in listing.dirs && Parent(q) < q;
      assert !(Parent(q) < d);
    }
  }

  /** None of the components of an entry of the current directory was checked before. */
  lemma UntouchedSoFar(source: Tree, d: Path, p: Path, checked0: set<Path>, checked: set<Path>)
    requires p != [] && Parent(p) == d && p !in checked
    requires forall q :: q in checked0 ==> !(q <= d)
    requires forall q :: q in checked ==> q in checked0 || (q != [] && Parent(q) == d)
    ensures !Doomed(source, checked, p)
  {
    forall k | 0 < k <= |p| ensures p[..k] !in checked {
      if k == |p| { assert p[..k] == p; } else { assert p[..k] <= d; }
    }
  }

  lemma MoveOver<T>(done: set<T>, all: set<T>, left: set<T>, x: T)
    requires x in all && x in left
    ensures done + (all - left) + {x} == done + (all - (left - {x}))
  {
  }

  lemma DoomedGrows(source: Tree, checked: set<Path>, p: Path, r: Path)
    requires p != []
    ensures Doomed(source, checked + {p}, r) <==> Doomed(source, checked, r) || (p <= r && !source.Exists(p))
  {
    if p <= r && !source.Exists(p) {
      assert r[..|p|] == p && r[..|p|] in checked + {p};
    }
    if Doomed(source, checked, r) {
      var k :| 0 < k <= |r| && r[..k] in checked && !source.Exists(r[..k]);
      assert r[..k] in checked + {p};
    }
  }

  /** Removing a file that the source lacks leaves what remains after its check. */
  lemma CheckFile(was: Tree, source: Tree, checked: set<Path>, now: Tree, now': Tree, p: Path)
    requires was.Valid() && Pruned(was, source, checked, now) && p in was.files
    requires if source.Exists(p) then now' == now else
               && now'.dirs == now.dirs
               && (forall q :: q in now'.files <==> q in now.files && q != p)
               && (forall q :: q in now'.files ==> now'.files[q] == now.files[q])
    ensures Pruned(was, source, checked + {p}, now')
  {
    forall r | was.Exists(r)
      ensures Doomed(source, checked + {p}, r) <==> Doomed(source, checked, r) || (p == r && !source.Exists(p))
    {
      DoomedGrows(source, checked, p, r);
      if p <= r && p != r { PrefixIsDir(was, r, |p|); assert r[..|p|] == p; }
    }
  }

  /** Removing a directory tree that the source lacks leaves what remains after its check. */
  lemma CheckDir(was: Tree, source: Tree, checked: set<Path>, now: Tree, now': Tree, p: Path)
    requires Pruned(was, source, checked, now) && p != []
    requires if source.Exists(p) then now' == now else
               && (forall q :: q in now'.dirs <==> q in now.dirs && !(p <= q))
               && (forall q :: q in now'.files <==> q in now.files && !(p <= q))
               && (forall q :: q in now'.files ==> now'.files[q] == now.files[q])
    ensures Pruned(was, source, checked + {p}, now')
  {
    forall r ensures Doomed(source, checked + {p}, r) <==> Doomed(source, checked, r) || (p <= r && !source.Exists(p)) {
      DoomedGrows(source, checked, p, r);
    }
  }

  lemma {:induction false} DeepestExists(s: set<Path>)
    requires s != {}
    ensures exists d :: d in s && forall e :: e in s ==> !(d < e)
  {
    var d := Longest(s);
    assert forall e :: e in s ==> !(d < e);
  }

  lemma {:induction false} Longest(s: set<Path>) returns (d: Path)
    requires s != {}
    ensures d in s && forall e :: e in s ==> |e| <= |d|
  {
    d :| d in s;
    if s != {d} {
      var e := Longest(s - {d});
      if |d| < |e| { d := e; }
    }
  }

  lemma NothingChecked(t: Tree, source: Tree)
    ensures Pruned(t, source, {}, t)
  {
  }

  /** With every entry checked, exactly those are gone that the source lacks. */
  lemma AllChecked(was: Tree, source: Tree, checked: set<Path>, now: Tree)
    requires was.Valid() && source.Valid() && Pruned(was, source, checked, now)
    requires forall q :: q in checked <==> q != [] && was.Exists(q)
    ensures Kept(source, was, now)
  {
    forall p | was.Exists(p) ensures Doomed(source, checked, p) <==> p != [] && !source.Exists(p) {
      if p != [] && !source.Exists(p) {
        assert p[..|p|] == p && p[..|p|] in checked;
      }
      if source.Exists(p) {
        forall k | 0 < k <= |p| ensures source.Exists(p[..k]) {
          if k == |p| { assert p[..k] == p; } else { PrefixIsDir(source, p, k); }
        }
      }
    }
  }
}
