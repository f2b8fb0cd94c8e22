/**
 Readiness of a layered library: providers change their status one by one, and the library publishes the
 edges of the common status.

 A status call runs without interruption up to the edge, except that the first provider turning ready makes
 the library read its rules, and other calls run meanwhile.  `published` (true for `Library.ready!`) and
 `rulesRead` are history.
 */
module LibraryReady {

  type Task = nat

  datatype Library = Library(isReady: seq<bool>, last: bool, event: bool, published: seq<bool>)
  {
    /** `is_ready`. */
    predicate AllReady()
    {
      |isReady| > 0 && forall p :: 0 <= p < |isReady| ==> isReady[p]
    }

    /** The end of `_set_ready`: compares the remembered status with the present one and publishes an edge. */
    function Edge(): Library
    {
      if !last && AllReady() then Library(isReady, true, true, published + [true])
      else if last && !AllReady() then Library(isReady, false, false, published + [false])
      else this
    }

    /** A status call up to its end, or up to the reading of the rules. */
    function SetStatus(p: nat, ready: bool): Library
      requires p < |isReady|
    {
      var l := this.(isReady := isReady[p := ready]);
      if p == 0 && ready then l else l.Edge()
    }
  }

  class LibraryService {
    var isReady: seq<bool>
    var isReadyLast: bool
    var libraryReadyEvent: bool
    var published: seq<bool>

    constructor (providers: nat)
      ensures AsLibrary() == Initial(providers)
    {
      isReady := seq(providers, i => false);
      isReadyLast, libraryReadyEvent, published := false, false, [];
    }

    function AsLibrary(): Library
      reads this
    {
      Library(isReady, isReadyLast, libraryReadyEvent, published)
    }

    method IsReady() returns (ready: bool)
      ensures ready <==> AsLibrary().AllReady()
    {
      if |isReady| == 0 { return false; }
      for p := 0 to |isReady|
        invariant forall q :: 0 <= q < p ==> isReady[q]
      {
        if !isReady[p] { return false; }
      }
      return true;
    }

    method PublishEdge()
      modifies this
      ensures AsLibrary() == old(AsLibrary()).Edge()
    {
      var ready := IsReady();
      if !isReadyLast && ready {
        isReadyLast := true;
        libraryReadyEvent := true;
        published := published + [true];
      } else if isReadyLast && !ready {
        isReadyLast := false;
        libraryReadyEvent := false;
        published := published + [false];
      }
    }

    /** A provider's `_set_ready` up to its end, or to the reading of the rules when it is the first and ready. */
    method SetReady(p: nat, ready: bool) returns (reading: bool)
      requires p < |isReady|
      modifies this
      ensures reading <==> p == 0 && ready
      ensures AsLibrary() == old(AsLibrary()).SetStatus(p, ready)
    {
      isReady := isReady[p := ready];
      if p == 0 && isReady[p] { return true; }
      PublishEdge();
      return false;
    }
  }

  /* --------------------------------------------------------- the runs */

  function Initial(providers: nat): Library
  {
    Library(seq(providers, i => false), false, false, [])
  }

  /** The calls that are reading rules, and whether any reading has been completed. */
  datatype State = State(lib: Library, reading: set<Task>, rulesRead: bool)

  datatype Event = SetReady(p: nat, ready: bool, task: Task) | FinishReading(task: Task)

  predicate Enabled(s: State, e: Event)
  {
    match e
    case SetReady(p, ready, task) => p < |s.lib.isReady| && task !in s.reading
    case FinishReading(task) => task in s.reading
  }

  function Step(s: State, e: Event): State
    requires Enabled(s, e)
  {
    match e
    case SetReady(p, ready, task) =>
      var t := s.(lib := s.lib.SetStatus(p, ready));
      if p == 0 && ready then t.(reading := t.reading + {task}) else t
    case FinishReading(task) =>
      State(s.lib.Edge(), s.reading - {task}, true)
  }

  predicate Legal(s: State, es: seq<Event>)
    decreases |es|
  {
    es == [] || (Enabled(s, es[0]) && Legal(Step(s, es[0]), es[1..]))
  }

  function Exec(s: State, es: seq<Event>): State
    requires Legal(s, es)
    decreases |es|
  {
    if es == [] then s else Exec(Step(s, es[0]), es[1..])
  }

  function Start(providers: nat): State
  {
    State(Initial(providers), {}, false)
  }

  predicate Alternates(published: seq<bool>)
  {
    forall i :: 0 <= i < |published| ==> published[i] == (i % 2 == 0)
  }

  predicate Inv(s: State)
  {
    && s.lib.event == s.lib.last && (s.lib.last <==> |s.lib.published| % 2 == 1) && Alternates(s.lib.published)
    && (s.lib.last ==> s.lib.AllReady())
    && (s.lib.last != s.lib.AllReady() ==> s.reading != {})
    && (|s.lib.isReady| == 1 && s.lib.last ==> s.rulesRead)
  }

  lemma EdgeCatchesUp(l: Library)
    requires l.event == l.last && (l.last <==> |l.published| % 2 == 1) && Alternates(l.published)
    ensures var m := l.Edge();
            m.isReady == l.isReady && m.last == m.event == l.AllReady() == m.AllReady() &&
            (m.last <==> |m.published| % 2 == 1) && Alternates(m.published)
  {
  }

  /**
   A status call ends with the remembered status and the event at the present status, and says so if they were not;
   only the first provider turning ready leaves all that for after the rules.
   */
  lemma StatusCallCatchesUp(l: Library, p: nat, ready: bool)
    requires p < |l.isReady| && l.event == l.last
    ensures var m := l.SetStatus(p, ready);
            && m.isReady == l.isReady[p := ready]
            && if p == 0 && ready then m == l.(isReady := m.isReady)
               else m.last == m.event == m.AllReady() &&
                    m.published == if m.last != l.last then l.published + [m.last] else l.published
  {
  }

  lemma StepKeepsInv(s: State, e: Event)
    requires Inv(s) && Enabled(s, e)
    ensures Inv(Step(s, e))
  {
    match e
    case SetReady(p, ready, task) =>
      var l := s.lib.(isReady := s.lib.isReady[p := ready]);
      if p == 0 && ready {
        if s.lib.last {
          assert s.lib.isReady[0];
          assert l.isReady == s.lib.isReady;
        }
        assert task in Step(s, e).reading;
      } else {
        EdgeCatchesUp(l);
        if |l.isReady| == 1 && l.AllReady() { assert l.isReady[0]; }
      }
    case FinishReading(task) => EdgeCatchesUp(s.lib);
  }

  lemma {:induction false} RunKeepsInv(s: State, es: seq<Event>)
    requires Inv(s) && Legal(s, es)
    ensures Inv(Exec(s, es))
    decreases |es|
  {
    if es != [] {
      StepKeepsInv(s, es[0]);
      RunKeepsInv(Step(s, es[0]), es[1..]);
    }
  }

  lemma StartInv(providers: nat)
    ensures Inv(Start(providers))
  {
    if providers > 0 { assert !Start(providers).lib.isReady[0]; }
  }

  /**
   For every interleaving of status calls: the edges alternate and start with ready, the library never takes
   itself for ready while a provider is not, and with no call in flight the remembered status and the event
   are the present status.
   */
  lemma EdgesAlternate(providers: nat, es: seq<Event>)
    requires Legal(Start(providers), es)
    ensures var s := Exec(Start(providers), es);
            && Alternates(s.lib.published) && (s.lib.last ==> s.lib.AllReady())
            && (s.reading == {} ==> s.lib.last == s.lib.event == s.lib.AllReady())
  {
    StartInv(providers);
    RunKeepsInv(Start(providers), es);
  }

  lemma {:induction false} ProvidersStay(s: State, es: seq<Event>)
    requires Legal(s, es)
    ensures |Exec(s, es).lib.isReady| == |s.lib.isReady|
    decreases |es|
  {
    if es != [] { ProvidersStay(Step(s, es[0]), es[1..]); }
  }

  /** With a single provider the rules are read before the library is ready. */
  lemma SingleProviderReadsFirst(es: seq<Event>)
    requires Legal(Start(1), es) && Exec(Start(1), es).lib.last
    ensures Exec(Start(1), es).rulesRead
  {
    StartInv(1);
    RunKeepsInv(Start(1), es);
    ProvidersStay(Start(1), es);
  }

  lemma {:induction false} LegalNext(s: State, es: seq<Event>, e: Event)
    requires Legal(s, es) && Enabled(Exec(s, es), e)
    ensures Legal(s, es + [e]) && Exec(s, es + [e]) == Step(Exec(s, es), e)
    decreases |es|
  {
    if es == [] {
      assert [e][1..] == [] && es + [e] == [e];
    } else {
      LegalNext(Step(s, es[0]), es[1..], e);
      assert (es + [e])[0] == es[0] && (es + [e])[1..] == es[1..] + [e];
    }
  }

  /** The first `k` of `n` providers turned ready, and the very first one is still reading the rules. */
  function FirstReady(n: nat, k: nat): State
    requires 1 <= k <= n && n >= 2
  {
    State(Library(seq(n, i => i < k), k == n, k == n, if k == n then [true] else []), {0}, false)
  }

  /** The providers turn ready one after another while the first is reading. */
  lemma {:induction false} TurnReady(n: nat, k: nat) returns (es: seq<Event>)
    requires 1 <= k <= n && n >= 2
    ensures Legal(Start(n), es) && Exec(Start(n), es) == FirstReady(n, k)
  {
    if k == 1 {
      es := [SetReady(0, true, 0)];
      LegalNext(Start(n), [], es[0]);
      assert [] + es == es;
      assert Initial(n).isReady[0 := true] == FirstReady(n, 1).lib.isReady;
      assert {} + {0} == {0};
    } else {
      var before := TurnReady(n, k - 1);
      var e := SetReady(k - 1, true, 1);
      LegalNext(Start(n), before, e);
      es := before + [e];
      var ready := FirstReady(n, k - 1).lib.isReady[k - 1 := true];
      assert ready == FirstReady(n, k).lib.isReady;
      if k < n { assert !ready[k]; }
    }
  }

  /** With more, the last provider to turn ready can publish the edge while the rules are still being read. */
  lemma ReadyBeforeRulesHappens(n: nat) returns (es: seq<Event>)
    requires n >= 2
    ensures Legal(Start(n), es)
    ensures var s := Exec(Start(n), es); s.lib.published == [true] && s.lib.last && !s.rulesRead && s.reading != {}
  {
    es := TurnReady(n, n);
  }

  /** The rules are read before the library is ready, in every interleaving, exactly when there is one provider. */
  lemma RulesComeFirstExactly(n: nat)
    requires n > 0
    ensures (forall es :: Legal(Start(n), es) && Exec(Start(n), es).lib.last ==> Exec(Start(n), es).rulesRead) <==>
            n == 1
  {
    if n == 1 {
      forall es | Legal(Start(1), es) && Exec(Start(1), es).lib.last ensures Exec(Start(1), es).rulesRead {
        SingleProviderReadsFirst(es);
      }
    } else {
      var es := ReadyBeforeRulesHappens(n);
    }
  }
}
