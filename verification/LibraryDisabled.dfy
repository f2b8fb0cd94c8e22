/**
 Disabled library items: which items are disabled for whom, and which subscriptions hear of a change.
 */
module LibraryDisabled {
  import opened Wrappers
  import opened Selections

  /** The tenants an item is disabled for; "*" disables it for everybody. */
  type Rule = seq<string>

  /** The rules of `/.disabled.yaml`: per item, and per folder. */
  datatype Table = Table(files: map<string, Rule>, folders: seq<(string, Rule)>)
  {
    /** Folder rules come from a dictionary, and are those whose path ends in a slash. */
    predicate Valid()
    {
      && (forall i, j :: 0 <= i < j < |folders| ==> folders[i].0 != folders[j].0)
      && (forall i :: 0 <= i < |folders| ==> EndsInSlash(folders[i].0))
    }
  }

  /** Whom a subscription is for. */
  datatype Target = Global | OneTenant(id: string) | AllTenants

  /** Who asks: the tenant of the current context, if there is one. */
  type Context = Option<string>

  predicate EndsInSlash(p: string)
  {
    p != "" && p[|p| - 1] == '/'
  }

  /* -------------------------------------------------------- check_disabled */

  predicate Hits(rule: Rule, who: Context)
  {
    "*" in rule || (who.Some? && who.value in rule)
  }

  /** A rule of a folder that contains `path`, or the rule of `path` itself, disables it. */
  ghost predicate IsDisabled(t: Table, path: string, who: Context)
  {
    || (exists i :: 0 <= i < |t.folders| && t.folders[i].0 <= path && Hits(t.folders[i].1, who))
    || (path in t.files && Hits(t.files[path], who))
  }

  method CheckDisabled(t: Table, path: string, who: Context) returns (disabled: bool)
    ensures disabled <==> IsDisabled(t, path, who)
  {
    for i := 0 to |t.folders|
      invariant forall j :: 0 <= j < i ==> !(t.folders[j].0 <= path && Hits(t.folders[j].1, who))
    {
      var (dp, rule) := t.folders[i];
      if dp <= path {
        if "*" in rule { return true; }
        if who.Some? && who.value in rule { return true; }
      }
    }
    if path !in t.files { return false; }
    var rule := t.files[path];
    if "*" in rule { return true; }
    if who.Some? && who.value in rule { return true; }
    return false;
  }

  /* ------------------------------------------------------ the changed rules */

  /** `_is_disabled_for_target`. */
  predicate HitsTarget(rule: Rule, target: Target)
  {
    match target
    case Global => "*" in rule
    case AllTenants => rule != []
    case OneTenant(id) => "*" in rule || id in rule
  }

  predicate SameMembers(a: Rule, b: Rule)
  {
    (forall x :: x in a ==> x in b) && (forall x :: x in b ==> x in a)
  }

  /** A change from rule `a` to rule `b` concerns the target. */
  predicate Concerns(a: Rule, b: Rule, target: Target)
  {
    if target.AllTenants? then !SameMembers(a, b) else HitsTarget(a, target) != HitsTarget(b, target)
  }

  function RuleAt(m: map<string, Rule>, p: string): Rule
  {
    if p in m then m[p] else []
  }

  function Normalized(path: string): (p: string)
    ensures EndsInSlash(p) && path <= p && |p| <= |path| + 1 && (EndsInSlash(path) ==> p == path)
  {
    if EndsInSlash(path) then path else path + "/"
  }

  predicate ConcernsAt(sub: string, a: map<string, Rule>, b: map<string, Rule>, target: Target, p: string)
  {
    sub <= p && Concerns(RuleAt(a, p), RuleAt(b, p), target)
  }

  /** Some rule at or below `sub` changed in a way that concerns the target. */
  ghost predicate SomeConcerns(sub: string, a: map<string, Rule>, b: map<string, Rule>, target: Target)
  {
    exists p :: ConcernsAt(sub, a, b, target, p)
  }

  lemma NoRuleNoConcern(sub: string, a: map<string, Rule>, b: map<string, Rule>, target: Target, p: string)
    requires ConcernsAt(sub, a, b, target, p)
    ensures p in a.Keys + b.Keys
  {
  }

  /** The loop over the union of the keys, in any order. */
  method AnyConcerns(sub: string, a: map<string, Rule>, b: map<string, Rule>, target: Target) returns (found: bool)
    ensures found <==> SomeConcerns(sub, a, b, target)
  {
    var keys := a.Keys + b.Keys;
    var todo := keys;
    while todo != {}
      invariant todo <= keys
      invariant forall p :: p in keys - todo ==> !ConcernsAt(sub, a, b, target, p)
      decreases |todo|
    {
      var p :| p in todo;
      todo := todo - {p};
      if sub <= p && Concerns(RuleAt(a, p), RuleAt(b, p), target) {
        assert ConcernsAt(sub, a, b, target, p);
        return true;
      }
    }
    forall p ensures !ConcernsAt(sub, a, b, target, p) {
      if ConcernsAt(sub, a, b, target, p) { NoRuleNoConcern(sub, a, b, target, p); }
    }
    return false;
  }

  /** The rule a folder has; later rules win, as in a dictionary. */
  function FolderMap(folders: seq<(string, Rule)>): (m: map<string, Rule>)
    ensures forall p :: p in m <==> exists i :: 0 <= i < |folders| && folders[i].0 == p
  {
    if folders == [] then map[]
    else
      var last := folders[|folders| - 1];
      assert forall i :: 0 <= i < |folders| - 1 ==> folders[..|folders| - 1][i] == folders[i];
      FolderMap(folders[..|folders| - 1])[last.0 := last.1]
  }

  method BuildFolderMap(folders: seq<(string, Rule)>) returns (m: map<string, Rule>)
    ensures m == FolderMap(folders)
  {
    m := map[];
    for i := 0 to |folders|
      invariant m == FolderMap(folders[..i])
    {
      assert folders[..i + 1][..i] == folders[..i];
      m := m[folders[i].0 := folders[i].1];
    }
    assert folders[..|folders|] == folders;
  }

  ghost predicate DiffAffects(subPath: string, before: Table, after: Table, target: Target)
  {
    var sub := Normalized(subPath);
    || SomeConcerns(sub, before.files, after.files, target)
    || SomeConcerns(sub, FolderMap(before.folders), FolderMap(after.folders), target)
  }

  method IsDisabledDiffAffectingPath(subPath: string, before: Table, after: Table, target: Target)
    returns (affects: bool)
    ensures affects <==> DiffAffects(subPath, before, after, target)
  {
    var sub := Normalized(subPath);
    affects := AnyConcerns(sub, before.files, after.files, target);
    if affects { return; }
    var oldMap := BuildFolderMap(before.folders);
    var newMap := BuildFolderMap(after.folders);
    affects := AnyConcerns(sub, oldMap, newMap, target);
  }

  /* ----------------------------------------------- what a quiet diff means */

  /** The askers a subscription stands for. */
  predicate Covers(target: Target, who: Context)
  {
    match target
    case Global => who == None
    case OneTenant(id) => who == Some(id)
    case AllTenants => true
  }

  /** Nobody the subscription stands for can see a difference at or below `sub`. */
  ghost predicate SameBelow(sub: string, before: Table, after: Table, who: Context)
  {
    forall x :: sub <= x ==> (IsDisabled(before, x, who) <==> IsDisabled(after, x, who))
  }

  /** A rule of a proper ancestor folder of `sub` disables everything below it. */
  ghost predicate AncestorHits(t: Table, sub: string, who: Context)
  {
    exists i :: 0 <= i < |t.folders| && t.folders[i].0 < sub && Hits(t.folders[i].1, who)
  }

  predicate FolderHits(t: Table, p: string, who: Context)
  {
    exists i :: 0 <= i < |t.folders| && t.folders[i].0 == p && Hits(t.folders[i].1, who)
  }

  /** An item is disabled from above, from a folder between `sub` and the item, or by its own rule. */
  ghost predicate HitFromBelow(t: Table, sub: string, x: string, who: Context)
  {
    || (exists p :: sub <= p <= x && FolderHits(t, p, who))
    || (x in t.files && Hits(t.files[x], who))
  }

  lemma SplitAtSub(t: Table, sub: string, x: string, who: Context)
    requires sub <= x
    ensures IsDisabled(t, x, who) <==> AncestorHits(t, sub, who) || HitFromBelow(t, sub, x, who)
  {
    forall i | 0 <= i < |t.folders| && t.folders[i].0 <= x && Hits(t.folders[i].1, who)
      ensures AncestorHits(t, sub, who) || HitFromBelow(t, sub, x, who)
    {
      var p := t.folders[i].0;
      if |p| < |sub| {
        assert p == x[..|p|] == sub[..|p|];
        assert p < sub;
      } else {
        assert sub == x[..|sub|] == p[..|sub|];
        assert FolderHits(t, p, who);
      }
    }
    if AncestorHits(t, sub, who) {
      var i :| 0 <= i < |t.folders| && t.folders[i].0 < sub && Hits(t.folders[i].1, who);
      assert t.folders[i].0 <= x;
    }
  }

  lemma LastFolder(front: seq<(string, Rule)>, last: (string, Rule))
    ensures FolderMap(front + [last]) == FolderMap(front)[last.0 := last.1]
  {
    assert (front + [last])[..|front|] == front;
  }

  lemma {:induction false} FolderMapHits(folders: seq<(string, Rule)>, p: string, who: Context)
    requires forall i, j :: 0 <= i < j < |folders| ==> folders[i].0 != folders[j].0
    ensures Hits(RuleAt(FolderMap(folders), p), who) <==>
            exists i :: 0 <= i < |folders| && folders[i].0 == p && Hits(folders[i].1, who)
  {
    if folders != [] {
      var front, last := folders[..|folders| - 1], folders[|folders| - 1];
      assert forall i :: 0 <= i < |front| ==> front[i] == folders[i];
      assert folders == front + [last];
      LastFolder(front, last);
      if last.0 == p {
        assert forall i :: 0 <= i < |front| ==> front[i].0 != p;
      } else {
        FolderMapHits(front, p, who);
        assert RuleAt(FolderMap(folders), p) == RuleAt(FolderMap(front), p);
      }
    }
  }

  /** A change that does not concern the target leaves every asker it covers where it was. */
  lemma QuietRule(a: Rule, b: Rule, target: Target, who: Context)
    requires !Concerns(a, b, target) && Covers(target, who)
    ensures Hits(a, who) == Hits(b, who)
  {
  }

  /**
   Which changes of a rule are reported: exactly those that an asker of the subscription can see, and for all
   tenants also a change of the tenants of a rule that disables for everybody before and after.
   */
  lemma ConcernsExactly(a: Rule, b: Rule, target: Target)
    ensures Concerns(a, b, target) <==>
            || (exists who :: Covers(target, who) && Hits(a, who) != Hits(b, who))
            || (target == AllTenants && "*" in a && "*" in b && exists x :: (x in a) != (x in b))
  {
    match target
    case Global => assert Covers(target, None) && HitsTarget(a, target) == Hits(a, None);
    case OneTenant(id) => assert Covers(target, Some(id)) && HitsTarget(a, target) == Hits(a, Some(id));
    case AllTenants =>
      if who :| Hits(a, who) != Hits(b, who) { QuietRuleShows(a, b, who); }
      if x :| (x in a) != (x in b) {
        if ("*" in a) != ("*" in b) {
          assert Covers(target, None) && Hits(a, None) != Hits(b, None);
        } else if "*" !in a {
          assert Covers(target, Some(x)) && Hits(a, Some(x)) != Hits(b, Some(x));
        }
      }
  }

  lemma QuietRuleShows(a: Rule, b: Rule, who: Context)
    requires Hits(a, who) != Hits(b, who)
    ensures !SameMembers(a, b)
  {
  }

  lemma QuietBelow(sub: string, before: Table, after: Table, target: Target, who: Context)
    requires before.Valid() && after.Valid() && Covers(target, who)
    requires !SomeConcerns(sub, before.files, after.files, target)
    requires !SomeConcerns(sub, FolderMap(before.folders), FolderMap(after.folders), target)
    ensures forall p :: sub <= p ==> FolderHits(before, p, who) == FolderHits(after, p, who)
    ensures forall x :: sub <= x ==> HitFromBelow(before, sub, x, who) == HitFromBelow(after, sub, x, who)
  {
    forall p | sub <= p ensures FolderHits(before, p, who) == FolderHits(after, p, who) {
      FolderMapHits(before.folders, p, who);
      FolderMapHits(after.folders, p, who);
      assert !ConcernsAt(sub, FolderMap(before.folders), FolderMap(after.folders), target, p);
      QuietRule(RuleAt(FolderMap(before.folders), p), RuleAt(FolderMap(after.folders), p), target, who);
    }
    forall x | sub <= x ensures HitFromBelow(before, sub, x, who) == HitFromBelow(after, sub, x, who) {
      assert !ConcernsAt(sub, before.files, after.files, target, x);
      QuietRule(RuleAt(before.files, x), RuleAt(after.files, x), target, who);
    }
  }

  function Filler(n: nat): (s: string)
    ensures |s| == n && forall i :: 0 <= i < n ==> s[i] == 'x'
  {
    seq(n, i => 'x')
  }

  lemma {:induction false} LongerThanAll(keys: set<string>) returns (n: nat)
    ensures forall k :: k in keys ==> |k| < n
  {
    if keys == {} {
      n := 0;
    } else {
      var k :| k in keys;
      var m := LongerThanAll(keys - {k});
      n := if m <= |k| then |k| + 1 else m;
    }
  }

  /** A name directly below `sub` that no item rule and no folder rule below `sub` mentions. */
  lemma UnruledItem(sub: string, before: Table, after: Table) returns (x: string)
    requires before.Valid() && after.Valid() && EndsInSlash(sub)
    ensures sub <= x && x !in before.files && x !in after.files
    ensures forall t, p, who :: (t == before || t == after) && sub <= p <= x && FolderHits(t, p, who) ==> p == sub
  {
    var n := LongerThanAll(before.files.Keys + after.files.Keys);
    x := sub + Filler(n);
    forall t, p, who | (t == before || t == after) && sub <= p <= x && FolderHits(t, p, who) ensures p == sub {
    }
  }

  /**
   When the diff reports nothing to a subscription, the askers it stands for get the same answers at and
   below the path exactly when the ancestor folders say the same as before, or the path's own folder rule
   disables everything anyway.
   */
  lemma QuietDiffMeansSameAnswers(subPath: string, before: Table, after: Table, target: Target, who: Context)
    requires before.Valid() && after.Valid() && Covers(target, who)
    requires !DiffAffects(subPath, before, after, target)
    ensures var sub := Normalized(subPath);
            SameBelow(sub, before, after, who) <==>
            AncestorHits(before, sub, who) == AncestorHits(after, sub, who) || FolderHits(before, sub, who)
  {
    var sub := Normalized(subPath);
    QuietBelow(sub, before, after, target, who);
    forall x | sub <= x
      ensures IsDisabled(before, x, who) <==> AncestorHits(before, sub, who) || HitFromBelow(before, sub, x, who)
      ensures IsDisabled(after, x, who) <==> AncestorHits(after, sub, who) || HitFromBelow(before, sub, x, who)
    {
      SplitAtSub(before, sub, x, who);
      SplitAtSub(after, sub, x, who);
    }
    var x := UnruledItem(sub, before, after);
    assert HitFromBelow(before, sub, x, who) ==> FolderHits(before, sub, who);
  }

  /** If no folder rule of a proper ancestor changed, a quiet diff means the same answers. */
  lemma UnchangedAncestors(subPath: string, before: Table, after: Table, target: Target, who: Context)
    requires before.Valid() && after.Valid() && Covers(target, who)
    requires !DiffAffects(subPath, before, after, target)
    requires forall p :: p < Normalized(subPath) ==>
             RuleAt(FolderMap(before.folders), p) == RuleAt(FolderMap(after.folders), p)
    ensures SameBelow(Normalized(subPath), before, after, who)
  {
    var sub := Normalized(subPath);
    forall p | p < sub ensures FolderHits(before, p, who) == FolderHits(after, p, who) {
      FolderMapHits(before.folders, p, who);
      FolderMapHits(after.folders, p, who);
    }
    AncestorsByFolder(before, sub, who);
    AncestorsByFolder(after, sub, who);
    QuietDiffMeansSameAnswers(subPath, before, after, target, who);
  }

  lemma AncestorsByFolder(t: Table, sub: string, who: Context)
    ensures AncestorHits(t, sub, who) <==> exists p :: p < sub && FolderHits(t, p, who)
  {
    if AncestorHits(t, sub, who) {
      var i :| 0 <= i < |t.folders| && t.folders[i].0 < sub && Hits(t.folders[i].1, who);
      assert FolderHits(t, t.folders[i].0, who);
    }
  }

  /**
   A subscriber of `/a/b/` hears nothing when `/a/` is disabled for everybody, although every item below
   `/a/b/` turns disabled.
   */
  lemma AncestorChangeIsMissed(target: Target, who: Context, x: string)
    requires Covers(target, who) && "/a/b/" <= x
    ensures var before, after := Table(map[], []), Table(map[], [("/a/", ["*"])]);
            before.Valid() && after.Valid() && !DiffAffects("/a/b/", before, after, target) &&
            !IsDisabled(before, x, who) && IsDisabled(after, x, who)
  {
    var before, after := Table(map[], []), Table(map[], [("/a/", ["*"])]);
    assert Normalized("/a/b/") == "/a/b/";
    forall p | "/a/b/" <= p ensures p !in FolderMap(after.folders) && p !in FolderMap(before.folders) {
    }
    assert "/a/" <= x by {
      assert "/a/b/"[..3] == "/a/";
      assert x[..3] == "/a/b/"[..3];
    }
    assert after.folders[0].0 <= x && Hits(after.folders[0].1, who);
  }

  /** A folder rule of the path or of an ancestor disables everything at and below it. */
  ghost predicate AllHit(t: Table, sub: string, who: Context)
  {
    AncestorHits(t, sub, who) || FolderHits(t, sub, who)
  }

  /** Whatever a rule of `a` below `sub` disables, the rules of `b` below `sub` disable as well. */
  ghost predicate CoveredBelow(a: Table, b: Table, sub: string, who: Context)
  {
    && (forall p :: sub < p && FolderHits(a, p, who) ==> exists q :: sub < q <= p && FolderHits(b, q, who))
    && (forall x :: sub <= x && x in a.files && Hits(a.files[x], who) ==>
          (exists q :: sub < q <= x && FolderHits(b, q, who)) || (x in b.files && Hits(b.files[x], who)))
  }

  lemma HitBelowExactly(t: Table, sub: string, x: string, who: Context)
    requires sub <= x && !AllHit(t, sub, who)
    ensures IsDisabled(t, x, who) <==>
            (exists q :: sub < q <= x && FolderHits(t, q, who)) || (x in t.files && Hits(t.files[x], who))
  {
    SplitAtSub(t, sub, x, who);
    if q :| sub <= q <= x && FolderHits(t, q, who) { assert q != sub; }
  }

  lemma CoveredMeansDisabled(a: Table, b: Table, sub: string, x: string, who: Context)
    requires sub <= x && !AllHit(a, sub, who) && !AllHit(b, sub, who)
    requires CoveredBelow(a, b, sub, who) && IsDisabled(a, x, who)
    ensures IsDisabled(b, x, who)
  {
    HitBelowExactly(a, sub, x, who);
    HitBelowExactly(b, sub, x, who);
    if p :| sub < p <= x && FolderHits(a, p, who) {
      var q :| sub < q <= p && FolderHits(b, q, who);
      assert q <= x by { assert q == p[..|q|] == x[..|q|]; }
    }
  }

  lemma DisabledMeansCovered(a: Table, b: Table, sub: string, who: Context)
    requires a.Valid() && b.Valid() && !AllHit(a, sub, who) && !AllHit(b, sub, who)
    requires forall x :: sub <= x && IsDisabled(a, x, who) ==> IsDisabled(b, x, who)
    ensures CoveredBelow(a, b, sub, who)
  {
    forall p | sub < p && FolderHits(a, p, who) ensures exists q :: sub < q <= p && FolderHits(b, q, who) {
      var x := UnruledItem(p, a, b);
      BelowPath(sub, p, x);
      HitBelowExactly(a, sub, x, who);
      HitBelowExactly(b, sub, x, who);
      var q :| sub < q <= x && FolderHits(b, q, who);
      if |q| <= |p| { assert q == x[..|q|] == p[..|q|]; }
    }
    forall x | sub <= x && x in a.files && Hits(a.files[x], who)
      ensures (exists q :: sub < q <= x && FolderHits(b, q, who)) || (x in b.files && Hits(b.files[x], who))
    {
      HitBelowExactly(a, sub, x, who);
      HitBelowExactly(b, sub, x, who);
    }
  }

  lemma BelowPath(sub: string, p: string, x: string)
    requires sub <= p <= x
    ensures sub <= x
  {
    assert sub == p[..|sub|] == x[..|sub|];
  }

  /**
   For any two tables: nobody can see a difference at or below a path exactly when a folder rule from the path
   up disables everything in both, or in neither and the rules below cover each other.
   */
  lemma SameAnswersExactly(sub: string, before: Table, after: Table, who: Context)
    requires before.Valid() && after.Valid() && EndsInSlash(sub)
    ensures SameBelow(sub, before, after, who) <==>
            AllHit(before, sub, who) == AllHit(after, sub, who) &&
            (AllHit(before, sub, who) ||
             (CoveredBelow(before, after, sub, who) && CoveredBelow(after, before, sub, who)))
  {
    AllHitHitsAll(before, sub, who);
    AllHitHitsAll(after, sub, who);
    if AllHit(before, sub, who) != AllHit(after, sub, who) {
      var x := UnruledItem(sub, before, after);
      SplitAtSub(before, sub, x, who);
      SplitAtSub(after, sub, x, who);
    } else if !AllHit(before, sub, who) {
      if SameBelow(sub, before, after, who) {
        DisabledMeansCovered(before, after, sub, who);
        DisabledMeansCovered(after, before, sub, who);
      }
      if CoveredBelow(before, after, sub, who) && CoveredBelow(after, before, sub, who) {
        forall x | sub <= x ensures IsDisabled(before, x, who) <==> IsDisabled(after, x, who) {
          if IsDisabled(before, x, who) { CoveredMeansDisabled(before, after, sub, x, who); }
          if IsDisabled(after, x, who) { CoveredMeansDisabled(after, before, sub, x, who); }
        }
      }
    }
  }

  lemma AllHitHitsAll(t: Table, sub: string, who: Context)
    ensures AllHit(t, sub, who) ==> forall x :: sub <= x ==> IsDisabled(t, x, who)
  {
    if AllHit(t, sub, who) {
      forall x | sub <= x ensures IsDisabled(t, x, who) { SplitAtSub(t, sub, x, who); }
    }
  }

  /* -------------------------------------------------------- _read_disabled */

  /** What reading and parsing `/.disabled.yaml` comes to; the entries in the order of the file. */
  datatype DisabledFile =
    | Unreadable
    | Missing
    | Broken
    | Empty
    | OldSet(items: seq<string>)
    | Entries(entries: seq<(string, Rule)>)
  {
    /** Keys of a set or a dictionary are distinct. */
    predicate Valid()
    {
      && (OldSet? ==> forall i, j :: 0 <= i < j < |items| ==> items[i] != items[j])
      && (Entries? ==> forall i, j :: 0 <= i < j < |entries| ==> entries[i].0 != entries[j].0)
    }
  }

  /** The table holds the rules of the file and no others. */
  ghost predicate Reflects(t: Table, file: DisabledFile)
  {
    && t.Valid()
    && match file
       case Unreadable => true
       case Missing => t == Table(map[], [])
       case Broken => t == Table(map[], [])
       case Empty => t == Table(map[], [])
       case OldSet(items) => t.folders == [] && (forall p :: p in t.files <==> p in items) &&
                             (forall p :: p in t.files ==> t.files[p] == ["*"])
       case Entries(es) => (forall p :: p in t.files ==> !EndsInSlash(p) && (p, t.files[p]) in es) &&
                           (forall e :: e in es && !EndsInSlash(e.0) ==> e.0 in t.files) &&
                           (forall e :: e in t.folders <==> EndsInSlash(e.0) && e in es)
  }

  /**
   What the entries of the file mean: one that ends in a slash disables everything below it, any other just its
   item, for the tenants it lists or with "*" for everybody.
   */
  lemma DisabledByEntriesExactly(t: Table, es: seq<(string, Rule)>, x: string, who: Context)
    requires Reflects(t, Entries(es)) && Entries(es).Valid()
    ensures IsDisabled(t, x, who) <==>
            exists e ::
              && e in es && ("*" in e.1 || (who.Some? && who.value in e.1))
              && if e.0 != "" && e.0[|e.0| - 1] == '/' then e.0 <= x else e.0 == x
  {
    if e :| && e in es && ("*" in e.1 || (who.Some? && who.value in e.1))
            && if e.0 != "" && e.0[|e.0| - 1] == '/' then e.0 <= x else e.0 == x
    {
      if EndsInSlash(e.0) {
        var i :| 0 <= i < |t.folders| && t.folders[i] == e;
        assert t.folders[i].0 <= x && Hits(t.folders[i].1, who);
      } else {
        assert x in t.files && (x, t.files[x]) in es;
        assert t.files[x] == e.1;
      }
    }
    if i :| 0 <= i < |t.folders| && t.folders[i].0 <= x && Hits(t.folders[i].1, who) {
      var e := t.folders[i];
      assert e in t.folders && e in es && EndsInSlash(e.0);
    } else if x in t.files && Hits(t.files[x], who) {
      assert (x, t.files[x]) in es && !EndsInSlash(x);
    }
  }

  /** Those of the subscribed paths that the diff reports. */
  ghost function Affected(subs: seq<(Target, string)>, before: Table, after: Table): seq<string>
  {
    if subs == [] then []
    else
      var rest, s := Affected(subs[..|subs| - 1], before, after), subs[|subs| - 1];
      if DiffAffects(s.1, before, after, s.0) then rest + [s.1] else rest
  }

  ghost function AffectedAt(subs: seq<(Target, string)>, before: Table, after: Table): set<nat>
  {
    set k: nat | k < |subs| && DiffAffects(subs[k].1, before, after, subs[k].0)
  }

  /** The paths are those of the subscriptions at the positions `ks`. */
  ghost predicate PathsAt(subs: seq<(Target, string)>, ks: seq<nat>, paths: seq<string>)
  {
    |paths| == |ks| && forall i :: 0 <= i < |ks| ==> ks[i] < |subs| && paths[i] == subs[ks[i]].1
  }

  lemma AffectedNext(front: seq<(Target, string)>, last: (Target, string), before: Table, after: Table)
    ensures var affects := DiffAffects(last.1, before, after, last.0);
            AffectedAt(front + [last], before, after) ==
            if affects then AffectedAt(front, before, after) + {|front|} else AffectedAt(front, before, after)
  {
    var subs := front + [last];
    forall k: nat ensures k in AffectedAt(subs, before, after) <==>
                          k in AffectedAt(front, before, after) ||
                          (k == |front| && DiffAffects(last.1, before, after, last.0))
    {
      if k < |front| { assert subs[k] == front[k]; }
    }
  }

  /** They come in the order of the subscriptions, once for each subscription that the diff affects. */
  lemma {:induction false} AffectedInOrder(subs: seq<(Target, string)>, before: Table, after: Table)
    returns (ks: seq<nat>)
    ensures Enumerates(ks, AffectedAt(subs, before, after)) && PathsAt(subs, ks, Affected(subs, before, after))
  {
    if subs == [] {
      ks := [];
    } else {
      var front, last := subs[..|subs| - 1], subs[|subs| - 1];
      ks := AffectedInOrder(front, before, after);
      assert subs == front + [last];
      AffectedNext(front, last, before, after);
      if DiffAffects(last.1, before, after, last.0) {
        EnumeratesNext(ks, AffectedAt(front, before, after), |front|);
        ks := ks + [|front|];
      }
    }
  }

  /** The subscribed paths that are told when the file is read. */
  ghost function Told(file: DisabledFile, publishChanges: bool, subs: seq<(Target, string)>, before: Table,
                      after: Table)
    : seq<string>
  {
    if publishChanges && (file.Missing? || file.OldSet? || file.Entries?) then Affected(subs, before, after) else []
  }

  class LibraryService {
    /** `Disabled` and `DisabledPaths`. */
    var table: Table

    constructor ()
      ensures table == Table(map[], [])
    {
      table := Table(map[], []);
    }

    /**
     Reads the rules anew.  With `publishChanges` the subscriptions that the diff affects are told, except
     after a file that is empty or does not parse: the rules are dropped, but the method returns before the
     diff is made.
     */
    method ReadDisabled(file: DisabledFile, publishChanges: bool, subs: seq<(Target, string)>)
      returns (published: seq<string>)
      requires table.Valid() && file.Valid()
      modifies this
      ensures table.Valid()
      ensures if file.Unreadable? then table == old(table) else Reflects(table, file)
      ensures published == Told(file, publishChanges, subs, old(table), table)
    {
      published := [];
      var before := table;
      match file {
        case Unreadable => return;
        case Missing => table := Table(map[], []);
        case Broken =>
          table := Table(map[], []);
          return;
        case Empty =>
          table := Table(map[], []);
          return;
        case OldSet(items) =>
          table := Table(map p | p in items :: ["*"], []);
        case Entries(es) =>
          table := ReadEntries(es);
      }
      if publishChanges {
        published := PublishChange(before, subs);
      }
    }

    static method ReadEntries(es: seq<(string, Rule)>) returns (t: Table)
      requires forall i, j :: 0 <= i < j < |es| ==> es[i].0 != es[j].0
      ensures Reflects(t, Entries(es))
    {
      var files: map<string, Rule>, folders: seq<(string, Rule)> := map[], [];
      for i := 0 to |es|
        invariant forall p :: p in files ==> !EndsInSlash(p) && (p, files[p]) in es[..i]
        invariant forall j :: 0 <= j < i && !EndsInSlash(es[j].0) ==> es[j].0 in files
        invariant forall e: (string, Rule) :: e in folders <==> EndsInSlash(e.0) && e in es[..i]
        invariant forall a, b :: 0 <= a < b < |folders| ==> folders[a].0 != folders[b].0
      {
        var (k, v) := es[i];
        assert es[..i + 1] == es[..i] + [es[i]];
        if EndsInSlash(k) {
          forall a | 0 <= a < |folders| ensures folders[a].0 != k { assert folders[a] in folders; }
          folders := folders + [(k, v)];
        } else {
          files := files[k := v];
        }
      }
      assert es[..|es|] == es;
      forall a | 0 <= a < |folders| ensures EndsInSlash(folders[a].0) { assert folders[a] in folders; }
      t := Table(files, folders);
    }

    /** Tells the subscribed paths that the change affects. */
    method PublishChange(before: Table, subs: seq<(Target, string)>) returns (published: seq<string>)
      ensures published == Affected(subs, before, table)
    {
      published := [];
      for i := 0 to |subs|
        invariant published == Affected(subs[..i], before, table)
      {
        assert subs[..i + 1][..i] == subs[..i];
        var affects := IsDisabledDiffAffectingPath(subs[i].1, before, table, subs[i].0);
        if affects { published := published + [subs[i].1]; }
      }
      assert subs[..|subs|] == subs;
    }
  }

  /** Every subscription that the diff affects is told, ... */
  lemma {:induction false} AffectedAreTold(subs: seq<(Target, string)>, before: Table, after: Table, i: nat)
    requires i < |subs| && DiffAffects(subs[i].1, before, after, subs[i].0)
    ensures subs[i].1 in Affected(subs, before, after)
  {
    if i < |subs| - 1 { AffectedAreTold(subs[..|subs| - 1], before, after, i); }
  }

  /** ... and no other. */
  lemma {:induction false} ToldAreAffected(subs: seq<(Target, string)>, before: Table, after: Table, path: string)
    returns (i: nat)
    requires path in Affected(subs, before, after)
    ensures i < |subs| && subs[i].1 == path && DiffAffects(path, before, after, subs[i].0)
  {
    var front := subs[..|subs| - 1];
    if path in Affected(front, before, after) {
      i := ToldAreAffected(front, before, after, path);
    } else {
      i := |subs| - 1;
    }
  }

  /**
   Whoever is not told after a published change sees the same answers at and below the subscribed path, as
   long as the folder rules of its proper ancestors are the same.
   */
  lemma UntoldSeeNoChange(subs: seq<(Target, string)>, before: Table, after: Table, i: nat, who: Context)
    requires before.Valid() && after.Valid() && i < |subs| && Covers(subs[i].0, who)
    requires subs[i].1 !in Affected(subs, before, after)
    requires AncestorHits(before, Normalized(subs[i].1), who) == AncestorHits(after, Normalized(subs[i].1), who)
    ensures SameBelow(Normalized(subs[i].1), before, after, who)
  {
    if DiffAffects(subs[i].1, before, after, subs[i].0) {
      AffectedAreTold(subs, before, after, i);
    }
    QuietDiffMeansSameAnswers(subs[i].1, before, after, subs[i].0, who);
  }

  /**
   Exactly when a subscription that reading the file told nothing still sees the same answers.  After a published
   diff it is a matter of the folder rules from the path up alone; after an empty or broken file, or a reading
   that publishes nothing, of all rules at and below the path too.
   */
  lemma UntoldSeeSameExactly(file: DisabledFile, publishChanges: bool, subs: seq<(Target, string)>, before: Table,
                             after: Table, i: nat, who: Context)
    requires before.Valid() && if file.Unreadable? then after == before else Reflects(after, file)
    requires i < |subs| && Covers(subs[i].0, who) && subs[i].1 !in Told(file, publishChanges, subs, before, after)
    ensures var sub := Normalized(subs[i].1);
            SameBelow(sub, before, after, who) <==>
            if publishChanges && (file.Missing? || file.OldSet? || file.Entries?) then
              AncestorHits(before, sub, who) == AncestorHits(after, sub, who) || FolderHits(before, sub, who)
            else
              AllHit(before, sub, who) == AllHit(after, sub, who) &&
              (AllHit(before, sub, who) ||
               (CoveredBelow(before, after, sub, who) && CoveredBelow(after, before, sub, who)))
  {
    if publishChanges && (file.Missing? || file.OldSet? || file.Entries?) {
      if DiffAffects(subs[i].1, before, after, subs[i].0) { AffectedAreTold(subs, before, after, i); }
      QuietDiffMeansSameAnswers(subs[i].1, before, after, subs[i].0, who);
    } else {
      SameAnswersExactly(Normalized(subs[i].1), before, after, who);
    }
  }

  /** After an empty or broken file nobody is told, and a subscriber sees the same only if no rule concerned it. */
  lemma SilentDropExactly(file: DisabledFile, publishChanges: bool, subs: seq<(Target, string)>, before: Table,
                          after: Table, sub: string, who: Context)
    requires before.Valid() && (file.Empty? || file.Broken?) && Reflects(after, file) && EndsInSlash(sub)
    ensures Told(file, publishChanges, subs, before, after) == []
    ensures SameBelow(sub, before, after, who) <==>
            && !AllHit(before, sub, who)
            && (forall p :: sub < p ==> !FolderHits(before, p, who))
            && (forall x :: sub <= x && x in before.files ==> !Hits(before.files[x], who))
  {
    assert after == Table(map[], []);
    SameAnswersExactly(sub, before, after, who);
  }

  /** A rule for everybody on `/a/` is dropped by an empty file: items are enabled again, and nobody is told. */
  lemma SilentDropHappens(target: Target, who: Context, x: string) returns (before: Table, after: Table)
    requires Covers(target, who) && "/a/" <= x
    ensures before.Valid() && Reflects(after, Empty) && Told(Empty, true, [(target, "/a/")], before, after) == []
    ensures IsDisabled(before, x, who) && !IsDisabled(after, x, who)
  {
    before, after := Table(map[], [("/a/", ["*"])]), Table(map[], []);
    assert before.folders[0].0 <= x && Hits(before.folders[0].1, who);
  }
}
