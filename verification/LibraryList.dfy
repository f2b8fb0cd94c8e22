/**
 Listing a layered library.

 Every provider lists some directories.  One level of a listing merges what the asked providers say about
 a directory; a recursive listing works breadth-first and asks, for each directory it finds, only the
 providers that listed it.
 */
module LibraryList {

  type Segment(==, !new)
  type Path = seq<Segment>

  /** An absolute name: its path, and whether it ends in a slash. */
  datatype Name = Name(path: Path, slash: bool)

  datatype Kind = Dir | Item | Other

  /** What a provider lists; it also names itself as the only provider of the item. */
  datatype Entry = Entry(name: Name, kind: Kind, layers: seq<int>)

  datatype LibraryItem = LibraryItem(name: Name, kind: Kind, layers: seq<int>, providers: seq<nat>)

  /** The providers in order, each with the directories it knows. */
  datatype Library = Library(lists: seq<map<Path, seq<Entry>>>)
  {
    /** `provider.list(path)`; a `KeyError` lists nothing. */
    function Lists(p: nat, path: Path): seq<Entry>
    {
      if p < |lists| && path in lists[p] then lists[p][path] else []
    }

    /** Names extend the directory's name by one segment, and exactly directories end in a slash. */
    ghost predicate Valid()
    {
      forall p, path, k :: 0 <= p < |lists| && 0 <= k < |Lists(p, path)| ==>
        var e := Lists(p, path)[k];
        e.name.path != [] && ParentOf(e.name) == path && (e.name.slash <==> e.kind.Dir?)
    }

    predicate ListsDir(p: nat, path: Path, n: Name)
    {
      exists k :: 0 <= k < |Lists(p, path)| && Lists(p, path)[k].name == n
    }

    /** A provider with content in a directory lists that directory in its parent. */
    ghost predicate Connected()
    {
      forall p, path :: 0 <= p < |lists| && path != [] && Lists(p, path) != [] ==>
        ListsDir(p, path[..|path| - 1], Name(path, true))
    }

    function All(): seq<nat>
    {
      seq(|lists|, i => i)
    }
  }

  function ParentOf(n: Name): Path
  {
    if n.path == [] then [] else n.path[..|n.path| - 1]
  }

  /* ------------------------------------------------------------ one level */

  function Find(items: seq<LibraryItem>, n: Name): (i: nat)
    ensures i <= |items| && (i < |items| ==> items[i].name == n)
    ensures forall j :: 0 <= j < i ==> items[j].name != n
  {
    if items == [] then 0 else if items[0].name == n then 0 else 1 + Find(items[1..], n)
  }

  function AddMissing<T(==)>(xs: seq<T>, more: seq<T>): seq<T>
    decreases |more|
  {
    if more == [] then xs
    else AddMissing(if more[0] in xs then xs else xs + [more[0]], more[1..])
  }

  /** Merges one entry of provider `p` into the items found so far. */
  function AddEntry(items: seq<LibraryItem>, p: nat, e: Entry): seq<LibraryItem>
  {
    var layers := if e.layers == [] then [p] else e.layers;
    var i := Find(items, e.name);
    if i < |items| then
      var it := items[i];
      items[i := it.(providers := if it.kind.Dir? && e.kind.Dir? then AddMissing(it.providers, [p]) else it.providers,
                     layers := AddMissing(it.layers, layers))]
    else items + [LibraryItem(e.name, e.kind, layers, [p])]
  }

  function AddEntries(items: seq<LibraryItem>, p: nat, es: seq<Entry>): seq<LibraryItem>
  {
    if es == [] then items else AddEntry(AddEntries(items, p, es[..|es| - 1]), p, es[|es| - 1])
  }

  /** The merged listing of `path` by the providers `ps`, in that order. */
  function Level(lib: Library, path: Path, ps: seq<nat>): seq<LibraryItem>
  {
    if ps == [] then []
    else AddEntries(Level(lib, path, ps[..|ps| - 1]), ps[|ps| - 1], lib.Lists(ps[|ps| - 1], path))
  }

  function FullLevel(lib: Library, path: Path): seq<LibraryItem>
  {
    Level(lib, path, lib.All())
  }

  lemma AddMissingOne<T>(xs: seq<T>, x: T)
    ensures AddMissing(xs, [x]) == if x in xs then xs else xs + [x]
  {
    assert [x][1..] == [];
  }

  /** The body of the inner loop of `_list`: merges an entry into the item of its name, or appends it. */
  method MergeEntry(items0: seq<LibraryItem>, p: nat, e: Entry) returns (items: seq<LibraryItem>)
    ensures items == AddEntry(items0, p, e)
  {
    var layers := if e.layers == [] then [p] else e.layers;
    var i := Find(items0, e.name);
    if i < |items0| {
      var existing := items0[i];
      if existing.kind.Dir? && e.kind.Dir? && p !in existing.providers {
        existing := existing.(providers := existing.providers + [p]);
      }
      var merged := existing.layers;
      assert layers[0..] == layers;
      for c := 0 to |layers|
        invariant AddMissing(merged, layers[c..]) == AddMissing(existing.layers, layers)
      {
        assert layers[c..][1..] == layers[c + 1..];
        if layers[c] !in merged {
          merged := merged + [layers[c]];
        }
      }
      assert layers[|layers|..] == [];
      AddMissingOne(items0[i].providers, p);
      items := items0[i := existing.(layers := merged)];
    } else {
      items := items0 + [LibraryItem(e.name, e.kind, layers, [p])];
    }
  }

  /** `_list`: asks the providers in order and merges items of the same name. */
  method ListLevel(lib: Library, path: Path, providers: seq<nat>) returns (items: seq<LibraryItem>)
    ensures items == Level(lib, path, providers)
  {
    items := [];
    for a := 0 to |providers|
      invariant items == Level(lib, path, providers[..a])
    {
      assert providers[..a + 1][..a] == providers[..a];
      var entries := lib.Lists(providers[a], path);
      ghost var before := items;
      for b := 0 to |entries|
        invariant items == AddEntries(before, providers[a], entries[..b])
      {
        assert entries[..b + 1][..b] == entries[..b];
        items := MergeEntry(items, providers[a], entries[b]);
      }
      assert entries[..|entries|] == entries;
    }
    assert providers[..|providers|] == providers;
  }

  /* ------------------------------------------- what a level says of a name */

  predicate HasName(items: seq<LibraryItem>, n: Name)
  {
    exists i :: 0 <= i < |items| && items[i].name == n
  }

  predicate DistinctNames(items: seq<LibraryItem>)
  {
    forall i, j :: 0 <= i < j < |items| ==> items[i].name != items[j].name
  }

  /** Exactly names with a slash belong to directories. */
  predicate Kinds(items: seq<LibraryItem>)
  {
    forall i :: 0 <= i < |items| ==> (items[i].name.slash <==> items[i].kind.Dir?)
  }

  predicate Named(es: seq<Entry>, n: Name)
  {
    exists k :: 0 <= k < |es| && es[k].name == n
  }

  /** Those of the providers `ps` that list `n` in `path`, in order. */
  function Listers(lib: Library, path: Path, ps: seq<nat>, n: Name): seq<nat>
  {
    if ps == [] then []
    else
      var before, p := Listers(lib, path, ps[..|ps| - 1], n), ps[|ps| - 1];
      if Named(lib.Lists(p, path), n) then before + [p] else before
  }

  lemma {:induction false} ListersAmong(lib: Library, path: Path, ps: seq<nat>, n: Name)
    ensures forall q :: q in Listers(lib, path, ps, n) ==> q in ps
  {
    if ps != [] { ListersAmong(lib, path, ps[..|ps| - 1], n); }
  }

  /** Listers of `n` after all of `ps` and the entries `es` of one more provider `p`. */
  function ListersAt(lib: Library, path: Path, ps: seq<nat>, p: nat, es: seq<Entry>, n: Name): seq<nat>
  {
    if Named(es, n) then Listers(lib, path, ps, n) + [p] else Listers(lib, path, ps, n)
  }

  /** The items are the listed names, each once, and directories carry exactly their listers. */
  ghost predicate Faithful(lib: Library, path: Path, ps: seq<nat>, p: nat, es: seq<Entry>, items: seq<LibraryItem>)
  {
    && DistinctNames(items) && Kinds(items)
    && (forall n :: HasName(items, n) <==> ListersAt(lib, path, ps, p, es, n) != [])
    && (forall i :: 0 <= i < |items| && items[i].kind.Dir? ==>
          items[i].providers == ListersAt(lib, path, ps, p, es, items[i].name))
  }

  lemma NamedNext(es: seq<Entry>, e: Entry, n: Name)
    ensures Named(es + [e], n) <==> Named(es, n) || n == e.name
  {
    if Named(es, n) {
      var k :| 0 <= k < |es| && es[k].name == n;
      assert (es + [e])[k].name == n;
    }
    if n == e.name { assert (es + [e])[|es|].name == n; }
  }

  lemma AddEntryNames(items: seq<LibraryItem>, p: nat, e: Entry)
    requires DistinctNames(items) && Kinds(items) && (e.name.slash <==> e.kind.Dir?)
    ensures var out := AddEntry(items, p, e);
            DistinctNames(out) && Kinds(out) && forall n :: HasName(out, n) <==> HasName(items, n) || n == e.name
  {
    var out := AddEntry(items, p, e);
    var i := Find(items, e.name);
    forall n ensures HasName(out, n) <==> HasName(items, n) || n == e.name {
      if HasName(items, n) {
        var k :| 0 <= k < |items| && items[k].name == n;
        assert out[k].name == n;
      }
      if n == e.name { assert out[i].name == n; }
    }
  }

  lemma AddEntryFaithful(lib: Library, path: Path, ps: seq<nat>, p: nat, es: seq<Entry>, items: seq<LibraryItem>,
                         e: Entry)
    requires Faithful(lib, path, ps, p, es, items) && p !in ps && (e.name.slash <==> e.kind.Dir?)
    ensures Faithful(lib, path, ps, p, es + [e], AddEntry(items, p, e))
  {
    var out := AddEntry(items, p, e);
    var i := Find(items, e.name);
    AddEntryNames(items, p, e);
    forall n ensures ListersAt(lib, path, ps, p, es + [e], n) ==
                     if n == e.name && !Named(es, n) then Listers(lib, path, ps, n) + [p]
                     else ListersAt(lib, path, ps, p, es, n)
    {
      NamedNext(es, e, n);
    }
    forall k | 0 <= k < |out| && out[k].kind.Dir?
      ensures out[k].providers == ListersAt(lib, path, ps, p, es + [e], out[k].name)
    {
      if k == i < |items| {
        ListersAmong(lib, path, ps, e.name);
        AddMissingOne(items[i].providers, p);
      } else if k == |items| {
        assert !HasName(items, e.name);
        assert Listers(lib, path, ps, e.name) == [];
      }
    }
  }

  lemma {:induction false} AddEntriesFaithful(lib: Library, path: Path, ps: seq<nat>, p: nat, es: seq<Entry>,
                                              items: seq<LibraryItem>)
    requires Faithful(lib, path, ps, p, [], items) && p !in ps
    requires forall k :: 0 <= k < |es| ==> (es[k].name.slash <==> es[k].kind.Dir?)
    ensures Faithful(lib, path, ps, p, es, AddEntries(items, p, es))
  {
    if es != [] {
      var es' := es[..|es| - 1];
      AddEntriesFaithful(lib, path, ps, p, es', items);
      AddEntryFaithful(lib, path, ps, p, es', AddEntries(items, p, es'), es[|es| - 1]);
      assert es == es' + [es[|es| - 1]];
    }
  }

  predicate Distinct(ps: seq<nat>)
  {
    forall i, j :: 0 <= i < j < |ps| ==> ps[i] != ps[j]
  }

  /** One level lists every name once, and a directory with exactly the providers that list it. */
  lemma {:induction false} LevelFaithful(lib: Library, path: Path, ps: seq<nat>)
    requires lib.Valid() && Distinct(ps)
    ensures var items := Level(lib, path, ps);
            && DistinctNames(items) && Kinds(items)
            && (forall n :: HasName(items, n) <==> Listers(lib, path, ps, n) != [])
            && forall i :: 0 <= i < |items| && items[i].kind.Dir? ==>
              items[i].providers == Listers(lib, path, ps, items[i].name)
  {
    if ps != [] {
      var ps', p := ps[..|ps| - 1], ps[|ps| - 1];
      LevelFaithful(lib, path, ps');
      var es := lib.Lists(p, path);
      assert Faithful(lib, path, ps', p, [], Level(lib, path, ps'));
      AddEntriesFaithful(lib, path, ps', p, es, Level(lib, path, ps'));
    }
  }

  /* ------------------------------------------------------------ narrowing */

  /** Those of `ps` that list anything in `path`. */
  function Contributors(lib: Library, path: Path, ps: seq<nat>): seq<nat>
  {
    if ps == [] then []
    else
      var before, p := Contributors(lib, path, ps[..|ps| - 1]), ps[|ps| - 1];
      if lib.Lists(p, path) != [] then before + [p] else before
  }

  lemma LevelSnoc(lib: Library, path: Path, ps: seq<nat>, p: nat)
    ensures Level(lib, path, ps + [p]) == AddEntries(Level(lib, path, ps), p, lib.Lists(p, path))
  {
    assert (ps + [p])[..|ps|] == ps;
  }

  lemma ContributorsSnoc(lib: Library, path: Path, ps: seq<nat>, p: nat)
    ensures Contributors(lib, path, ps + [p]) ==
            if lib.Lists(p, path) != [] then Contributors(lib, path, ps) + [p] else Contributors(lib, path, ps)
  {
    assert (ps + [p])[..|ps|] == ps;
  }

  lemma {:induction false} OnlyContributorsMatter(lib: Library, path: Path, ps: seq<nat>)
    ensures Level(lib, path, ps) == Level(lib, path, Contributors(lib, path, ps))
  {
    if ps != [] {
      var ps', p := ps[..|ps| - 1], ps[|ps| - 1];
      assert ps == ps' + [p];
      OnlyContributorsMatter(lib, path, ps');
      LevelSnoc(lib, path, ps', p);
      ContributorsSnoc(lib, path, ps', p);
      if lib.Lists(p, path) != [] {
        LevelSnoc(lib, path, Contributors(lib, path, ps'), p);
      }
    }
  }

  /** Whoever has content in a directory is among those that list it in its parent. */
  lemma {:induction false} ContributorsAreListers(lib: Library, path: Path, ps: seq<nat>)
    requires lib.Connected() && path != [] && forall k :: 0 <= k < |ps| ==> ps[k] < |lib.lists|
    ensures Contributors(lib, path, Listers(lib, path[..|path| - 1], ps, Name(path, true))) ==
            Contributors(lib, path, ps)
  {
    if ps != [] {
      var ps', p := ps[..|ps| - 1], ps[|ps| - 1];
      var up, n := path[..|path| - 1], Name(path, true);
      assert ps == ps' + [p];
      ContributorsAreListers(lib, path, ps');
      ContributorsSnoc(lib, path, ps', p);
      ContributorsSnoc(lib, path, Listers(lib, up, ps', n), p);
      if lib.Lists(p, path) != [] {
        assert lib.ListsDir(p, up, n);
        assert Named(lib.Lists(p, up), n);
      }
    }
  }

  /**
   Asking only the providers that a directory's item carries gives the same level as asking all of them.
   */
  lemma NarrowLevelIsFull(lib: Library, path: Path)
    requires lib.Connected() && path != []
    ensures Level(lib, path, Listers(lib, path[..|path| - 1], lib.All(), Name(path, true))) == FullLevel(lib, path)
  {
    var ls := Listers(lib, path[..|path| - 1], lib.All(), Name(path, true));
    ContributorsAreListers(lib, path, lib.All());
    OnlyContributorsMatter(lib, path, ls);
    OnlyContributorsMatter(lib, path, lib.All());
  }

  /** The providers that a directory's item carries. */
  function Carried(lib: Library, path: Path): seq<nat>
    requires path != []
  {
    Listers(lib, path[..|path| - 1], lib.All(), Name(path, true))
  }

  lemma {:induction false} ListersDistinct(lib: Library, path: Path, ps: seq<nat>, n: Name)
    requires Distinct(ps)
    ensures Distinct(Listers(lib, path, ps, n))
  {
    if ps != [] {
      var front := ps[..|ps| - 1];
      ListersDistinct(lib, path, front, n);
      ListersAmong(lib, path, front, n);
      assert ps[|ps| - 1] !in front;
      var before := Listers(lib, path, front, n);
      assert forall i :: 0 <= i < |before| ==> before[i] in front;
    }
  }

  lemma {:induction false} SomeLister(lib: Library, path: Path, ps: seq<nat>, n: Name)
    ensures Listers(lib, path, ps, n) != [] <==> exists i :: 0 <= i < |ps| && Named(lib.Lists(ps[i], path), n)
  {
    if ps != [] {
      var front := ps[..|ps| - 1];
      SomeLister(lib, path, front, n);
      assert forall i :: 0 <= i < |front| ==> front[i] == ps[i];
    }
  }

  lemma LevelHasName(lib: Library, path: Path, ps: seq<nat>, n: Name)
    requires lib.Valid() && Distinct(ps)
    ensures HasName(Level(lib, path, ps), n) <==> exists i :: 0 <= i < |ps| && Named(lib.Lists(ps[i], path), n)
  {
    LevelFaithful(lib, path, ps);
    SomeLister(lib, path, ps, n);
  }

  /** Some provider lists the name in the directory, but none that the directory's item carries does. */
  ghost predicate OnlyHidden(lib: Library, path: Path, n: Name)
    requires path != []
  {
    && (exists p :: 0 <= p < |lib.lists| && Named(lib.Lists(p, path), n))
    && forall i :: 0 <= i < |Carried(lib, path)| ==> !Named(lib.Lists(Carried(lib, path)[i], path), n)
  }

  /** Without any assumption on the providers, a narrowed level misses exactly the names that only others list. */
  lemma NarrowLevelMisses(lib: Library, path: Path, n: Name)
    requires lib.Valid() && path != []
    ensures HasName(Level(lib, path, Carried(lib, path)), n) <==>
            HasName(FullLevel(lib, path), n) && !OnlyHidden(lib, path, n)
  {
    var carried := Carried(lib, path);
    assert Distinct(lib.All()) && |lib.All()| == |lib.lists| && forall k :: 0 <= k < |lib.All()| ==> lib.All()[k] == k;
    ListersDistinct(lib, path[..|path| - 1], lib.All(), Name(path, true));
    ListersAmong(lib, path[..|path| - 1], lib.All(), Name(path, true));
    LevelHasName(lib, path, lib.All(), n);
    LevelHasName(lib, path, carried, n);
    if i :| 0 <= i < |carried| && Named(lib.Lists(carried[i], path), n) {
      assert carried[i] in lib.All();
    }
  }

  /* ------------------------------------------------------ recursive listing */

  /** All names any provider lists. */
  function Known(lib: Library): set<Name>
  {
    set p, path, k | 0 <= p < |lib.lists| && path in lib.lists[p] && 0 <= k < |lib.lists[p][path]|
      :: lib.lists[p][path][k].name
  }

  lemma AllIsDistinct(lib: Library)
    ensures Distinct(lib.All()) && forall k :: 0 <= k < |lib.All()| ==> lib.All()[k] == k
  {
  }

  /** A name that some provider lists lies in the listed directory. */
  lemma {:induction false} ListedLiesIn(lib: Library, path: Path, ps: seq<nat>, n: Name)
    requires lib.Valid() && Listers(lib, path, ps, n) != []
    ensures n.path != [] && ParentOf(n) == path && n in Known(lib)
  {
    var p := ps[|ps| - 1];
    if Named(lib.Lists(p, path), n) {
      var k :| 0 <= k < |lib.Lists(p, path)| && lib.Lists(p, path)[k].name == n;
      assert p < |lib.lists| && path in lib.lists[p] && lib.lists[p][path][k].name == n;
    } else {
      ListedLiesIn(lib, path, ps[..|ps| - 1], n);
    }
  }

  /** An item of a listing, as a level of its parent directory describes it. */
  predicate Proper(lib: Library, it: LibraryItem)
  {
    && it.name.path != [] && it.name in Known(lib) && (it.name.slash <==> it.kind.Dir?)
    && (it.kind.Dir? ==> it.providers == Listers(lib, ParentOf(it.name), lib.All(), it.name))
  }

  lemma FullLevelItems(lib: Library, path: Path)
    requires lib.Valid()
    ensures var items := FullLevel(lib, path);
            DistinctNames(items) && forall i :: 0 <= i < |items| ==>
              Proper(lib, items[i]) && ParentOf(items[i].name) == path
  {
    AllIsDistinct(lib);
    LevelFaithful(lib, path, lib.All());
    var items := FullLevel(lib, path);
    forall i | 0 <= i < |items| ensures Proper(lib, items[i]) && ParentOf(items[i].name) == path {
      assert HasName(items, items[i].name);
      ListedLiesIn(lib, path, lib.All(), items[i].name);
    }
  }

  /** Items come from the start directory or from a directory among the first `k`. */
  ghost predicate Rooted(start: Path, items: seq<LibraryItem>, k: nat)
  {
    forall i :: 0 <= i < |items| ==>
      |items[i].name.path| > |start| &&
      (ParentOf(items[i].name) == start ||
       exists j :: 0 <= j < k && j < |items| && items[j].kind.Dir? && ParentOf(items[i].name) == items[j].name.path)
  }

  ghost predicate ListingInv(lib: Library, start: Path, items: seq<LibraryItem>, k: nat)
  {
    && k <= |items| && DistinctNames(items) && (forall i :: 0 <= i < |items| ==> Proper(lib, items[i]))
    && Rooted(start, items, k)
  }

  /** The level of the next directory brings only new names. */
  lemma NextLevelIsNew(lib: Library, start: Path, items: seq<LibraryItem>, k: nat)
    requires lib.Valid() && ListingInv(lib, start, items, k) && k < |items| && items[k].kind.Dir?
    ensures var more := FullLevel(lib, items[k].name.path);
            DistinctNames(items + more) && Rooted(start, items + more, k + 1) &&
            forall i :: 0 <= i < |more| ==> Proper(lib, more[i])
  {
    var d := items[k];
    var more := FullLevel(lib, d.name.path);
    FullLevelItems(lib, d.name.path);
    forall i, j | 0 <= i < |items| && 0 <= j < |more| ensures items[i].name != more[j].name {
      assert ParentOf(more[j].name) == d.name.path;
    }
    var all := items + more;
    forall i | 0 <= i < |all|
      ensures |all[i].name.path| > |start|
      ensures ParentOf(all[i].name) == start ||
              exists j :: 0 <= j < k + 1 && j < |all| && all[j].kind.Dir? && ParentOf(all[i].name) == all[j].name.path
    {
      if i < |items| {
        if ParentOf(items[i].name) != start {
          var j :| 0 <= j < k && j < |items| && items[j].kind.Dir? && ParentOf(items[i].name) == items[j].name.path;
          assert all[j] == items[j];
        }
      } else {
        assert all[k] == d && ParentOf(all[i].name) == all[k].name.path;
      }
    }
  }

  lemma {:induction false} NoMoreThanKnown(items: seq<LibraryItem>, known: set<Name>)
    requires DistinctNames(items) && forall i :: 0 <= i < |items| ==> items[i].name in known
    ensures |items| <= |known|
  {
    if items != [] {
      var n := items[|items| - 1].name;
      NoMoreThanKnown(items[..|items| - 1], known - {n});
    }
  }

  /** The listing once its `k`-th item has been opened, asking every provider. */
  function Next(lib: Library, items: seq<LibraryItem>, k: nat): seq<LibraryItem>
    requires k < |items|
  {
    if items[k].kind.Dir? then items + FullLevel(lib, items[k].name.path) else items
  }

  lemma NextKeepsInv(lib: Library, start: Path, items: seq<LibraryItem>, k: nat)
    requires lib.Valid() && ListingInv(lib, start, items, k) && k < |items|
    ensures ListingInv(lib, start, Next(lib, items, k), k + 1) && k < |Known(lib)|
  {
    NoMoreThanKnown(items, Known(lib));
    if items[k].kind.Dir? { NextLevelIsNew(lib, start, items, k); }
  }

  /** The walk that asks every provider for every directory, from item `k` on. */
  ghost function FullWalk(lib: Library, start: Path, items: seq<LibraryItem>, k: nat): seq<LibraryItem>
    requires lib.Valid() && ListingInv(lib, start, items, k)
    decreases |Known(lib)| - k
  {
    if k == |items| then items
    else
      NextKeepsInv(lib, start, items, k);
      FullWalk(lib, start, Next(lib, items, k), k + 1)
  }

  /** The reference: every level of the listing is asked of all providers. */
  ghost function FullListing(lib: Library, path: Path, recursive: bool): seq<LibraryItem>
    requires lib.Valid()
  {
    FullLevelItems(lib, path);
    if recursive then FullWalk(lib, path, FullLevel(lib, path), 0) else FullLevel(lib, path)
  }

  lemma NarrowLevel(lib: Library, it: LibraryItem)
    requires lib.Valid() && lib.Connected() && Proper(lib, it) && it.kind.Dir?
    ensures Level(lib, it.name.path, it.providers) == FullLevel(lib, it.name.path)
  {
    assert it.name == Name(it.name.path, true);
    NarrowLevelIsFull(lib, it.name.path);
  }

  lemma Append<T>(xs: seq<T>, ys: seq<T>, k: nat)
    requires k < |xs|
    ensures xs[k..][1..] + ys == (xs + ys)[k + 1..]
  {
  }

  /**
   `list`: with `recursive`, a breadth-first walk that asks for each directory only the providers of its
   item.  The result is the one that asking every provider at every level gives, in the same order, and it
   has every name once.
   */
  method List(lib: Library, path: Path, recursive: bool) returns (items: seq<LibraryItem>)
    requires lib.Valid() && lib.Connected()
    ensures DistinctNames(items)
    ensures items == FullListing(lib, path, recursive) && (!recursive ==> items == FullLevel(lib, path))
  {
    items := ListLevel(lib, path, lib.All());
    FullLevelItems(lib, path);
    if !recursive { return; }
    ghost var k := 0;
    var recitems := items;
    while |recitems| > 0
      invariant ListingInv(lib, path, items, k) && recitems == items[k..]
      invariant FullWalk(lib, path, items, k) == FullListing(lib, path, true)
      decreases |Known(lib)| - k
    {
      var item := recitems[0];
      recitems := recitems[1..];
      NextKeepsInv(lib, path, items, k);
      if item.kind.Dir? {
        NarrowLevel(lib, item);
        var childItems := ListLevel(lib, item.name.path, item.providers);
        Append(items, childItems, k);
        items := items + childItems;
        recitems := recitems + childItems;
      }
      k := k + 1;
    }
  }

  /** Some provider lists `n`, in the start directory or in a directory that is itself visible. */
  ghost predicate Visible(lib: Library, start: Path, n: Name)
    decreases |n.path|
  {
    && n.path != [] && Listers(lib, ParentOf(n), lib.All(), n) != []
    && (ParentOf(n) == start || Visible(lib, start, Name(ParentOf(n), true)))
  }

  ghost function Names(items: seq<LibraryItem>): set<Name>
  {
    set i | 0 <= i < |items| :: items[i].name
  }

  /** The names that some provider lists in `path`. */
  ghost function LevelNames(lib: Library, path: Path): set<Name>
  {
    Names(FullLevel(lib, path))
  }

  /** All items are visible, and every level opened so far is there. */
  ghost predicate Opened(lib: Library, start: Path, items: seq<LibraryItem>, k: nat)
  {
    && (forall n :: n in Names(items) ==> Visible(lib, start, n))
    && LevelNames(lib, start) <= Names(items)
    && (forall j :: 0 <= j < k && j < |items| && items[j].kind.Dir? ==>
      LevelNames(lib, items[j].name.path) <= Names(items))
  }

  lemma ListedInLevel(lib: Library, path: Path, n: Name)
    requires lib.Valid()
    ensures n in LevelNames(lib, path) <==> Listers(lib, path, lib.All(), n) != []
    ensures n in LevelNames(lib, path) ==> n.path != [] && ParentOf(n) == path
  {
    AllIsDistinct(lib);
    LevelFaithful(lib, path, lib.All());
    assert n in LevelNames(lib, path) <==> HasName(FullLevel(lib, path), n);
    if n in LevelNames(lib, path) { ListedLiesIn(lib, path, lib.All(), n); }
  }

  lemma NamesInSum(xs: seq<LibraryItem>, ys: seq<LibraryItem>)
    ensures Names(xs + ys) == Names(xs) + Names(ys)
  {
    forall n ensures n in Names(xs + ys) <==> n in Names(xs) + Names(ys) {
      if n in Names(xs) {
        var i :| 0 <= i < |xs| && xs[i].name == n;
        assert (xs + ys)[i].name == n;
      }
      if n in Names(ys) {
        var i :| 0 <= i < |ys| && ys[i].name == n;
        assert (xs + ys)[|xs| + i].name == n;
      }
    }
  }

  lemma BelowVisible(lib: Library, start: Path, d: Name, n: Name)
    requires lib.Valid() && Visible(lib, start, d) && d.slash && n in LevelNames(lib, d.path)
    ensures Visible(lib, start, n)
  {
    ListedInLevel(lib, d.path, n);
    assert d == Name(d.path, true);
  }

  lemma DirVisible(lib: Library, start: Path, items: seq<LibraryItem>, k: nat)
    requires lib.Valid() && k < |items| && Proper(lib, items[k]) && items[k].kind.Dir?
    requires Visible(lib, start, items[k].name)
    ensures forall n :: n in LevelNames(lib, items[k].name.path) ==> Visible(lib, start, n)
  {
    forall n | n in LevelNames(lib, items[k].name.path) ensures Visible(lib, start, n) {
      BelowVisible(lib, start, items[k].name, n);
    }
  }

  /** Opening a directory: `names` and `level` are the names before and in the directory. */
  lemma OpenDir(lib: Library, start: Path, items: seq<LibraryItem>, k: nat, next: seq<LibraryItem>, names: set<Name>,
                level: set<Name>)
    requires Opened(lib, start, items, k) && k < |items| && items <= next
    requires names == Names(items) && level == LevelNames(lib, items[k].name.path) && Names(next) == names + level
    requires forall n :: n in level ==> Visible(lib, start, n)
    ensures Opened(lib, start, next, k + 1)
  {
    assert forall j :: 0 <= j < k + 1 ==> next[j] == items[j];
    forall j | 0 <= j < k + 1 && items[j].kind.Dir? ensures LevelNames(lib, items[j].name.path) <= names + level {
      if j < k { assert LevelNames(lib, items[j].name.path) <= names; }
    }
  }

  lemma NextOpens(lib: Library, start: Path, items: seq<LibraryItem>, k: nat)
    requires lib.Valid() && k < |items| && Proper(lib, items[k]) && Opened(lib, start, items, k)
    ensures Opened(lib, start, Next(lib, items, k), k + 1)
  {
    if items[k].kind.Dir? {
      var more := FullLevel(lib, items[k].name.path);
      NamesInSum(items, more);
      assert items[k].name in Names(items);
      DirVisible(lib, start, items, k);
      OpenDir(lib, start, items, k, items + more, Names(items), Names(more));
    }
  }

  lemma {:induction false} WalkOpens(lib: Library, start: Path, items: seq<LibraryItem>, k: nat)
    requires lib.Valid() && ListingInv(lib, start, items, k) && Opened(lib, start, items, k)
    ensures var out := FullWalk(lib, start, items, k);
            ListingInv(lib, start, out, |out|) && Opened(lib, start, out, |out|)
    decreases |Known(lib)| - k
  {
    if k < |items| {
      NextKeepsInv(lib, start, items, k);
      NextOpens(lib, start, items, k);
      WalkOpens(lib, start, Next(lib, items, k), k + 1);
    }
  }

  lemma {:induction false} VisibleIsListed(lib: Library, start: Path, items: seq<LibraryItem>, n: Name)
    requires lib.Valid() && Opened(lib, start, items, |items|) && Visible(lib, start, n)
    requires forall i :: 0 <= i < |items| ==> Proper(lib, items[i])
    ensures n in Names(items)
    decreases |n.path|
  {
    ListedInLevel(lib, ParentOf(n), n);
    if ParentOf(n) != start {
      var d := Name(ParentOf(n), true);
      VisibleIsListed(lib, start, items, d);
      var j :| 0 <= j < |items| && items[j].name == d;
    }
  }

  /** A recursive listing has exactly the visible names. */
  lemma ListingIsVisible(lib: Library, start: Path, n: Name)
    requires lib.Valid()
    ensures n in Names(FullListing(lib, start, true)) <==> Visible(lib, start, n)
  {
    var first := FullLevel(lib, start);
    FullLevelItems(lib, start);
    forall m | m in Names(first) ensures Visible(lib, start, m) { ListedInLevel(lib, start, m); }
    WalkOpens(lib, start, first, 0);
    if Visible(lib, start, n) { VisibleIsListed(lib, start, FullListing(lib, start, true), n); }
  }
}
