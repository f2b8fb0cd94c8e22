/**
 Selections: positions picked from a sequence, in order.
 */
module Selections {

  /** The numbers in `chosen`, each once, in increasing order. */
  ghost predicate Enumerates(ks: seq<nat>, chosen: set<nat>)
  {
    && (forall i, j :: 0 <= i < j < |ks| ==> ks[i] < ks[j])
    && (forall k :: k in ks <==> k in chosen)
  }

  lemma EnumeratesNext(ks: seq<nat>, chosen: set<nat>, n: nat)
    requires Enumerates(ks, chosen) && forall k :: k in chosen ==> k < n
    ensures Enumerates(ks + [n], chosen + {n})
  {
    forall i | 0 <= i < |ks| ensures ks[i] < n {
      assert ks[i] in ks;
    }
  }

  /** All numbers one larger. */
  function Shifted(ks: seq<nat>): seq<nat>
  {
    seq(|ks|, i requires 0 <= i < |ks| => ks[i] + 1)
  }

  /** Shifted by one, and perhaps with zero in front. */
  lemma EnumeratesCons(ks: seq<nat>, chosen: set<nat>, zero: bool)
    requires Enumerates(ks, chosen)
    ensures var more := set k | k in chosen :: k + 1;
            Enumerates(if zero then [0] + Shifted(ks) else Shifted(ks), if zero then {0} + more else more)
  {
    var more := set k | k in chosen :: k + 1;
    forall n ensures n in Shifted(ks) <==> n in more {
      if n in Shifted(ks) {
        var i :| 0 <= i < |ks| && Shifted(ks)[i] == n;
        assert ks[i] in ks && n == ks[i] + 1;
      }
      if n in more {
        var i :| 0 <= i < |ks| && ks[i] == n - 1;
        assert Shifted(ks)[i] == n;
      }
    }
  }
}
