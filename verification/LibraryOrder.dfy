/**
 In which order a listing comes, and where each of its items comes from.
 */
module LibraryOrder {
  import opened LibraryList
  import opened Selections

  /* ------------------------------------------------------------ one level */

  /** What the asked providers list, provider by provider. */
  function Asked(lib: Library, path: Path, ps: seq<nat>): seq<seq<Entry>>
  {
    seq(|ps|, i requires 0 <= i < |ps| => lib.Lists(ps[i], path))
  }

  /** The `k`-th entry of the `a`-th provider has the name. */
  predicate At(asked: seq<seq<Entry>>, n: Name, a: int, k: int)
  {
    0 <= a < |asked| && 0 <= k < |asked[a]| && asked[a][k].name == n
  }

  /** The `k`-th entry of the `a`-th provider is the first one of all with the name. */
  ghost predicate FirstAt(asked: seq<seq<Entry>>, n: Name, a: int, k: int)
  {
    At(asked, n, a, k) && forall b, l :: At(asked, n, b, l) ==> a < b || (a == b && k <= l)
  }

  /** The first entry with the name `m` comes before all entries with the name `n`. */
  ghost predicate ListedBefore(asked: seq<seq<Entry>>, m: Name, n: Name)
  {
    exists a, k :: FirstAt(asked, m, a, k) && forall b, l :: At(asked, n, b, l) ==> a < b || (a == b && k < l)
  }

  /** The layers that an entry adds; one without layers counts for the layer of its provider. */
  function LayersOf(p: nat, e: Entry): seq<int>
  {
    if e.layers == [] then [p] else e.layers
  }

  /** Some entry with the name adds the layer. */
  ghost predicate AddsLayer(asked: seq<seq<Entry>>, ps: seq<nat>, n: Name, layer: int)
    requires |ps| == |asked|
  {
    exists a, k :: At(asked, n, a, k) && layer in LayersOf(ps[a], asked[a][k])
  }

  /** The item is made of the first entry with its name, and has the layers of all of them. */
  ghost predicate MadeOf(asked: seq<seq<Entry>>, ps: seq<nat>, it: LibraryItem)
    requires |ps| == |asked|
  {
    && (exists a, k :: FirstAt(asked, it.name, a, k) && it.kind == asked[a][k].kind &&
                       LayersOf(ps[a], asked[a][k]) <= it.layers && [ps[a]] <= it.providers &&
                       (!it.kind.Dir? ==> it.providers == [ps[a]]))
    && (forall layer :: layer in it.layers <==> AddsLayer(asked, ps, it.name, layer))
  }

  /** The items have all names that are listed, in the order of their first entries. */
  ghost predicate InOrder(asked: seq<seq<Entry>>, items: seq<LibraryItem>)
  {
    && (forall i, j :: 0 <= i < j < |items| ==> ListedBefore(asked, items[i].name, items[j].name))
    && (forall n, a, k :: At(asked, n, a, k) ==> HasName(items, n))
  }

  ghost predicate Merged(asked: seq<seq<Entry>>, ps: seq<nat>, items: seq<LibraryItem>)
    requires |ps| == |asked|
  {
    InOrder(asked, items) && forall i :: 0 <= i < |items| ==> MadeOf(asked, ps, items[i])
  }

  /** One more entry of the last provider is an entry after all others. */
  lemma OneMoreEntry(before: seq<seq<Entry>>, es: seq<Entry>, e: Entry, n: Name, a: int, k: int)
    ensures At(before + [es + [e]], n, a, k) <==>
            At(before + [es], n, a, k) || (a == |before| && k == |es| && n == e.name)
  {
  }

  lemma FirstStays(before: seq<seq<Entry>>, es: seq<Entry>, e: Entry, n: Name, a: int, k: int)
    requires FirstAt(before + [es], n, a, k)
    ensures FirstAt(before + [es + [e]], n, a, k) && (before + [es + [e]])[a][k] == (before + [es])[a][k]
  {
    forall b, l | At(before + [es + [e]], n, b, l) ensures a < b || (a == b && k <= l) {
      OneMoreEntry(before, es, e, n, b, l);
    }
    OneMoreEntry(before, es, e, n, a, k);
  }

  lemma BeforeStays(before: seq<seq<Entry>>, es: seq<Entry>, e: Entry, m: Name, n: Name)
    requires ListedBefore(before + [es], m, n)
    ensures ListedBefore(before + [es + [e]], m, n)
  {
    var a, k :| FirstAt(before + [es], m, a, k) &&
                forall b, l :: At(before + [es], n, b, l) ==> a < b || (a == b && k < l);
    FirstStays(before, es, e, m, a, k);
    forall b, l | At(before + [es + [e]], n, b, l) ensures a < b || (a == b && k < l) {
      OneMoreEntry(before, es, e, n, b, l);
    }
  }

  /** A name that was not there comes after all that were. */
  lemma NewComesLast(before: seq<seq<Entry>>, es: seq<Entry>, e: Entry, m: Name)
    requires exists a, k :: FirstAt(before + [es], m, a, k)
    requires forall a, k :: !At(before + [es], e.name, a, k)
    ensures ListedBefore(before + [es + [e]], m, e.name)
    ensures FirstAt(before + [es + [e]], e.name, |before|, |es|)
  {
    var a, k :| FirstAt(before + [es], m, a, k);
    FirstStays(before, es, e, m, a, k);
    forall b, l | At(before + [es + [e]], e.name, b, l) ensures b == |before| && l == |es| {
      OneMoreEntry(before, es, e, e.name, b, l);
    }
    OneMoreEntry(before, es, e, e.name, |before|, |es|);
  }

  lemma LayersNext(before: seq<seq<Entry>>, es: seq<Entry>, e: Entry, ps: seq<nat>, n: Name, layer: int)
    requires |ps| == |before| + 1
    ensures AddsLayer(before + [es + [e]], ps, n, layer) <==>
            AddsLayer(before + [es], ps, n, layer) || (n == e.name && layer in LayersOf(ps[|before|], e))
  {
    forall a, k ensures At(before + [es + [e]], n, a, k) <==>
                        At(before + [es], n, a, k) || (a == |before| && k == |es| && n == e.name)
    {
      OneMoreEntry(before, es, e, n, a, k);
    }
    if a, k :| At(before + [es], n, a, k) && layer in LayersOf(ps[a], (before + [es])[a][k]) {
      assert (before + [es + [e]])[a][k] == (before + [es])[a][k];
    }
    if n == e.name { assert At(before + [es + [e]], n, |before|, |es|); }
  }

  lemma {:induction false} AddMissingExactly<T>(xs: seq<T>, more: seq<T>)
    ensures xs <= AddMissing(xs, more) && forall x :: x in AddMissing(xs, more) <==> x in xs || x in more
    decreases |more|
  {
    if more != [] {
      AddMissingExactly(if more[0] in xs then xs else xs + [more[0]], more[1..]);
      assert more == [more[0]] + more[1..];
    }
  }

  /** Layers are added one after another, each once. */
  lemma {:induction false} AddMissingInOrder<T>(xs: seq<T>, x: T, a: seq<T>, b: seq<T>)
    ensures AddMissing(xs, [x]) == if x in xs then xs else xs + [x]
    ensures AddMissing(xs, a + b) == AddMissing(AddMissing(xs, a), b)
    decreases |a|
  {
    AddMissingOne(xs, x);
    if a == [] {
      assert a + b == b;
    } else {
      AddMissingInOrder(if a[0] in xs then xs else xs + [a[0]], x, a[1..], b);
      assert (a + b)[0] == a[0] && (a + b)[1..] == a[1..] + b;
    }
  }

  /** An item after one more entry: of another name, or merged with it. */
  lemma ItemStaysMade(before: seq<seq<Entry>>, es: seq<Entry>, e: Entry, ps: seq<nat>, it: LibraryItem,
                      next: LibraryItem)
    requires |ps| == |before| + 1 && MadeOf(before + [es], ps, it)
    requires next.name == it.name && next.kind == it.kind && it.providers <= next.providers && it.layers <= next.layers
    requires !it.kind.Dir? ==> next.providers == it.providers
    requires forall layer :: layer in next.layers <==>
               layer in it.layers || (it.name == e.name && layer in LayersOf(ps[|before|], e))
    ensures MadeOf(before + [es + [e]], ps, next)
  {
    var a, k :| FirstAt(before + [es], it.name, a, k) && it.kind == (before + [es])[a][k].kind &&
                LayersOf(ps[a], (before + [es])[a][k]) <= it.layers && [ps[a]] <= it.providers &&
                (!it.kind.Dir? ==> it.providers == [ps[a]]);
    FirstStays(before, es, e, it.name, a, k);
    PrefixTrans(LayersOf(ps[a], (before + [es])[a][k]), it.layers, next.layers);
    PrefixTrans([ps[a]], it.providers, next.providers);
    forall layer ensures layer in next.layers <==> AddsLayer(before + [es + [e]], ps, it.name, layer) {
      LayersNext(before, es, e, ps, it.name, layer);
    }
  }

  lemma PrefixTrans<T>(a: seq<T>, b: seq<T>, c: seq<T>)
    requires a <= b <= c
    ensures a <= c
  {
    assert a == b[..|a|] == c[..|a|];
  }

  lemma NewItemMade(before: seq<seq<Entry>>, es: seq<Entry>, e: Entry, ps: seq<nat>, it: LibraryItem)
    requires |ps| == |before| + 1 && forall a, k :: !At(before + [es], e.name, a, k)
    requires it == LibraryItem(e.name, e.kind, LayersOf(ps[|before|], e), [ps[|before|]])
    ensures MadeOf(before + [es + [e]], ps, it)
  {
    forall b, l | At(before + [es + [e]], e.name, b, l) ensures b == |before| && l == |es| {
      OneMoreEntry(before, es, e, e.name, b, l);
    }
    assert FirstAt(before + [es + [e]], e.name, |before|, |es|);
    forall layer ensures layer in it.layers <==> AddsLayer(before + [es + [e]], ps, e.name, layer) {
      LayersNext(before, es, e, ps, e.name, layer);
    }
  }

  lemma AddEntryMade(before: seq<seq<Entry>>, es: seq<Entry>, e: Entry, ps: seq<nat>, items: seq<LibraryItem>)
    requires |ps| == |before| + 1 && DistinctNames(items) && Merged(before + [es], ps, items)
    ensures var out := AddEntry(items, ps[|before|], e);
            |items| <= |out| && (forall i :: 0 <= i < |items| ==> out[i].name == items[i].name) &&
            forall i :: 0 <= i < |out| ==> MadeOf(before + [es + [e]], ps, out[i])
  {
    var p := ps[|before|];
    var out, at := AddEntry(items, p, e), Find(items, e.name);
    forall i | 0 <= i < |items| ensures MadeOf(before + [es + [e]], ps, out[i]) {
      if i == at {
        AddMissingExactly(items[i].layers, LayersOf(p, e));
        AddMissingExactly(items[i].providers, [p]);
      }
      ItemStaysMade(before, es, e, ps, items[i], out[i]);
    }
    if at == |items| {
      forall a, k ensures !At(before + [es], e.name, a, k) {
        assert At(before + [es], e.name, a, k) ==> HasName(items, e.name);
      }
      NewItemMade(before, es, e, ps, out[at]);
    }
  }

  lemma AddEntryInOrder(before: seq<seq<Entry>>, es: seq<Entry>, e: Entry, ps: seq<nat>, items: seq<LibraryItem>)
    requires |ps| == |before| + 1 && DistinctNames(items) && Merged(before + [es], ps, items)
    ensures Merged(before + [es + [e]], ps, AddEntry(items, ps[|before|], e))
  {
    var out, at := AddEntry(items, ps[|before|], e), Find(items, e.name);
    AddEntryMade(before, es, e, ps, items);
    forall i, j | 0 <= i < j < |out| ensures ListedBefore(before + [es + [e]], out[i].name, out[j].name) {
      if j < |items| {
        BeforeStays(before, es, e, items[i].name, items[j].name);
      } else {
        assert MadeOf(before + [es], ps, items[i]);
        forall a, k ensures !At(before + [es], e.name, a, k) {
          assert At(before + [es], e.name, a, k) ==> HasName(items, e.name);
        }
        NewComesLast(before, es, e, items[i].name);
      }
    }
    forall n, a, k | At(before + [es + [e]], n, a, k) ensures HasName(out, n) {
      OneMoreEntry(before, es, e, n, a, k);
      if n == e.name {
        assert out[at].name == n;
      } else {
        var i :| 0 <= i < |items| && items[i].name == n;
        assert out[i].name == n;
      }
    }
  }

  lemma {:induction false} AddEntriesInOrder(before: seq<seq<Entry>>, es: seq<Entry>, ps: seq<nat>,
                                             items: seq<LibraryItem>)
    requires |ps| == |before| + 1 && DistinctNames(items) && Merged(before + [[]], ps, items)
    ensures var out := AddEntries(items, ps[|before|], es);
            DistinctNames(out) && Merged(before + [es], ps, out)
  {
    if es != [] {
      var es', e := es[..|es| - 1], es[|es| - 1];
      AddEntriesInOrder(before, es', ps, items);
      AddEntryInOrder(before, es', e, ps, AddEntries(items, ps[|before|], es'));
      assert es == es' + [e];
    }
  }

  lemma AskOneMore(before: seq<seq<Entry>>, ps: seq<nat>, p: nat, items: seq<LibraryItem>)
    requires |ps| == |before| && Merged(before, ps, items)
    ensures Merged(before + [[]], ps + [p], items)
  {
    forall n, a, k ensures At(before + [[]], n, a, k) <==> At(before, n, a, k) {}
    forall n, a, k ensures FirstAt(before + [[]], n, a, k) <==> FirstAt(before, n, a, k) {}
    forall i, j | 0 <= i < j < |items| ensures ListedBefore(before + [[]], items[i].name, items[j].name) {
      var a, k :| FirstAt(before, items[i].name, a, k) &&
                  forall b, l :: At(before, items[j].name, b, l) ==> a < b || (a == b && k < l);
      assert FirstAt(before + [[]], items[i].name, a, k);
    }
    forall i | 0 <= i < |items| ensures MadeOf(before + [[]], ps + [p], items[i]) {
      AskedOneMore(before, ps, p, items[i]);
    }
  }

  lemma AskedOneMore(before: seq<seq<Entry>>, ps: seq<nat>, p: nat, it: LibraryItem)
    requires |ps| == |before| && MadeOf(before, ps, it)
    ensures MadeOf(before + [[]], ps + [p], it)
  {
    var asked := before + [[]];
    forall n, a, k ensures At(asked, n, a, k) <==> At(before, n, a, k) {}
    var a, k :| FirstAt(before, it.name, a, k) && it.kind == before[a][k].kind &&
                LayersOf(ps[a], before[a][k]) <= it.layers && [ps[a]] <= it.providers &&
                (!it.kind.Dir? ==> it.providers == [ps[a]]);
    assert FirstAt(asked, it.name, a, k) && asked[a][k] == before[a][k] && (ps + [p])[a] == ps[a];
    forall layer ensures AddsLayer(asked, ps + [p], it.name, layer) <==> AddsLayer(before, ps, it.name, layer) {
      if b, l :| At(before, it.name, b, l) && layer in LayersOf(ps[b], before[b][l]) {
        assert At(asked, it.name, b, l) && asked[b][l] == before[b][l] && (ps + [p])[b] == ps[b];
      }
      if b, l :| At(asked, it.name, b, l) && layer in LayersOf((ps + [p])[b], asked[b][l]) {
        assert At(before, it.name, b, l) && asked[b][l] == before[b][l] && (ps + [p])[b] == ps[b];
      }
    }
  }

  /**
   A level comes in the order of merging: by the first provider asked that lists the name, and by the first entry
   of that provider's list.  Each item is made of that entry, and has the layers of all entries of its name.
   */
  lemma {:induction false} LevelInOrder(lib: Library, path: Path, ps: seq<nat>)
    ensures DistinctNames(Level(lib, path, ps)) && Merged(Asked(lib, path, ps), ps, Level(lib, path, ps))
  {
    if ps != [] {
      var ps', p := ps[..|ps| - 1], ps[|ps| - 1];
      LevelInOrder(lib, path, ps');
      AskOneMore(Asked(lib, path, ps'), ps', p, Level(lib, path, ps'));
      AddEntriesInOrder(Asked(lib, path, ps'), lib.Lists(p, path), ps' + [p], Level(lib, path, ps'));
      assert ps == ps' + [p];
      assert Asked(lib, path, ps) == Asked(lib, path, ps') + [lib.Lists(p, path)];
    }
  }

  ghost function ListersAtPositions(lib: Library, path: Path, ps: seq<nat>, n: Name): set<nat>
  {
    set i: nat | i < |ps| && Named(lib.Lists(ps[i], path), n)
  }

  lemma ListersNext(lib: Library, path: Path, front: seq<nat>, p: nat, n: Name)
    ensures ListersAtPositions(lib, path, front + [p], n) ==
            if Named(lib.Lists(p, path), n) then ListersAtPositions(lib, path, front, n) + {|front|}
            else ListersAtPositions(lib, path, front, n)
  {
    var ps := front + [p];
    forall i: nat ensures i in ListersAtPositions(lib, path, ps, n) <==>
                          i in ListersAtPositions(lib, path, front, n) ||
                          (i == |front| && Named(lib.Lists(p, path), n))
    {
      if i < |front| { assert ps[i] == front[i]; }
    }
  }

  /** The listers of a name are in the order in which the providers are asked. */
  lemma {:induction false} ListersInOrder(lib: Library, path: Path, ps: seq<nat>, n: Name) returns (ks: seq<nat>)
    ensures Enumerates(ks, ListersAtPositions(lib, path, ps, n)) && |Listers(lib, path, ps, n)| == |ks|
    ensures forall i :: 0 <= i < |ks| ==> ks[i] < |ps| && Listers(lib, path, ps, n)[i] == ps[ks[i]]
  {
    if ps == [] {
      ks := [];
    } else {
      var front, p := ps[..|ps| - 1], ps[|ps| - 1];
      ks := ListersInOrder(lib, path, front, n);
      assert ps == front + [p];
      ListersNext(lib, path, front, p, n);
      if Named(lib.Lists(p, path), n) {
        EnumeratesNext(ks, ListersAtPositions(lib, path, front, n), |front|);
        ks := ks + [|front|];
      }
    }
  }

  lemma {:induction false} EntriesKeepOrder(p: nat, es: seq<Entry>)
    requires forall i, j :: 0 <= i < j < |es| ==> es[i].name != es[j].name
    ensures var items := AddEntries([], p, es);
            |items| == |es| && forall i :: 0 <= i < |es| ==> items[i].name == es[i].name
  {
    if es != [] { EntriesKeepOrder(p, es[..|es| - 1]); }
  }

  /** The names of a single provider come as it lists them. */
  lemma SingleProviderKeepsOrder(lib: Library, path: Path, p: nat)
    requires var es := lib.Lists(p, path); forall i, j :: 0 <= i < j < |es| ==> es[i].name != es[j].name
    ensures var es, items := lib.Lists(p, path), Level(lib, path, [p]);
            |items| == |es| && forall i :: 0 <= i < |es| ==> items[i].name == es[i].name
  {
    assert [p][..0] == [];
    EntriesKeepOrder(p, lib.Lists(p, path));
  }

  /* ------------------------------------------------------ recursive listing */

  /** The levels of the directories among the items, one after another in the order of the items. */
  ghost function LevelsOf(lib: Library, items: seq<LibraryItem>): seq<LibraryItem>
  {
    if items == [] then []
    else
      var it := items[|items| - 1];
      LevelsOf(lib, items[..|items| - 1]) + if it.kind.Dir? then FullLevel(lib, it.name.path) else []
  }

  lemma LevelsNext(lib: Library, items: seq<LibraryItem>, it: LibraryItem)
    ensures LevelsOf(lib, items + [it]) ==
            LevelsOf(lib, items) + if it.kind.Dir? then FullLevel(lib, it.name.path) else []
  {
    assert (items + [it])[..|items|] == items;
  }

  lemma NextByLevels(lib: Library, first: seq<LibraryItem>, items: seq<LibraryItem>, k: nat)
    requires k < |items| && items == first + LevelsOf(lib, items[..k])
    ensures var next := Next(lib, items, k); k < |next| && next == first + LevelsOf(lib, next[..k + 1])
  {
    var next := Next(lib, items, k);
    var more := if items[k].kind.Dir? then FullLevel(lib, items[k].name.path) else [];
    assert next == items + more;
    assert next[..k + 1] == items[..k] + [items[k]];
    LevelsNext(lib, items[..k], items[k]);
    Regroup(first, LevelsOf(lib, items[..k]), more);
  }

  lemma Regroup<T>(a: seq<T>, b: seq<T>, c: seq<T>)
    ensures (a + b) + c == a + (b + c)
  {
  }

  lemma {:induction false} WalkByLevels(lib: Library, start: Path, items: seq<LibraryItem>, k: nat)
    requires lib.Valid() && ListingInv(lib, start, items, k)
    requires items == FullLevel(lib, start) + LevelsOf(lib, items[..k])
    ensures var all := FullWalk(lib, start, items, k); all == FullLevel(lib, start) + LevelsOf(lib, all)
    decreases |Known(lib)| - k
  {
    if k == |items| {
      assert items[..k] == items;
    } else {
      NextKeepsInv(lib, start, items, k);
      NextByLevels(lib, FullLevel(lib, start), items, k);
      WalkByLevels(lib, start, Next(lib, items, k), k + 1);
    }
  }

  /**
   A recursive listing comes breadth-first: the level of the start directory, then the levels of all directories of
   the listing in the order in which they are listed.
   */
  lemma ListingByLevels(lib: Library, start: Path)
    requires lib.Valid()
    ensures var all := FullListing(lib, start, true); all == FullLevel(lib, start) + LevelsOf(lib, all)
  {
    var first := FullLevel(lib, start);
    FullLevelItems(lib, start);
    assert first[..0] == [] && first == first + [];
    WalkByLevels(lib, start, first, 0);
  }
}
