/**
 The discovery index: the raw table of advertised records, the nested cache built from it, and lookups.

 The cache maps an identifier type (instance_id, service_id or a custom one) to identifiers and those
 to the endpoints of the instances that advertise them.
 */
module Discovery {
  import opened Wrappers

  /** Names of table items, identifiers and hosts; only equality matters. */
  type Name(==, !new)

  /** An identifier type; a custom one is any key but the two standard ones. */
  datatype IdType = InstanceId | ServiceId | CustomId(name: Name)

  datatype Family = INET | INET6

  datatype Endpoint = Endpoint(host: Name, port: int, family: Family)

  /** A listening address: "0.0.0.0", "::", or a specific one. */
  datatype Ip = AnyV4 | AnyV6 | Specific(address: Name)

  /** One entry of the advertised `web` list; `Malformed` stands for anything without two positions. */
  datatype WebEntry = Malformed | Entry(ip: Ip, port: int)

  datatype Record = Record(
    instanceId: Option<Name>,
    serviceId: Option<Name>,
    discovery: map<IdType, seq<Option<Name>>>,
    host: Option<Name>,
    web: Option<seq<WebEntry>>)

  type Raw = map<Name, Record>
  type Row = map<Name, set<Endpoint>>
  type Cache = map<IdType, Row>

  /* ------------------------------------------------------------- meaning */

  /** Identifiers a record advertises by type; the instance and service ids replace custom lists of that name. */
  function Ids(r: Record): map<IdType, seq<Option<Name>>>
  {
    r.discovery
    + (if r.instanceId.Some? then map[InstanceId := [r.instanceId]] else map[])
    + (if r.serviceId.Some? then map[ServiceId := [r.serviceId]] else map[])
  }

  /** The endpoint a web entry stands for, if it listens on a wildcard address. */
  function EndpointOf(host: Name, w: WebEntry): Option<Endpoint>
  {
    if w.Entry? && w.ip.AnyV4? then Some(Endpoint(host, w.port, INET))
    else if w.Entry? && w.ip.AnyV6? then Some(Endpoint(host, w.port, INET6))
    else None
  }

  /** The endpoints of the first `k` web entries. */
  function EndpointsUpTo(host: Name, web: seq<WebEntry>, k: nat): set<Endpoint>
    requires k <= |web|
  {
    if k == 0 then {} else
      var e := EndpointOf(host, web[k - 1]);
      EndpointsUpTo(host, web, k - 1) + if e.Some? then {e.value} else {}
  }

  function Endpoints(r: Record): set<Endpoint>
  {
    if r.host.None? || r.web.None? then {} else EndpointsUpTo(r.host.value, r.web.value, |r.web.value|)
  }

  /** Identifier `id` of type `t` leads to endpoint `e`. */
  datatype Offer = Offer(t: IdType, id: Name, e: Endpoint)

  predicate Names(ids: map<IdType, seq<Option<Name>>>, t: IdType, id: Name)
  {
    t in ids && Some(id) in ids[t]
  }

  /** Record `r` makes the offer `x`. */
  predicate Offers(r: Record, x: Offer)
  {
    x.e in Endpoints(r) && Names(Ids(r), x.t, x.id)
  }

  /** Some web entry listens on a wildcard address of that family and port. */
  ghost predicate ListensAt(r: Record, port: int, family: Family)
  {
    r.web.Some? && Entry(if family == INET then AnyV4 else AnyV6, port) in r.web.value
  }

  /** The record has the identifier: as its instance id or service id, or else in its custom list of the type. */
  predicate Carries(r: Record, t: IdType, id: Name)
  {
    if t == ServiceId && r.serviceId.Some? then r.serviceId == Some(id)
    else if t == InstanceId && r.instanceId.Some? then r.instanceId == Some(id)
    else t in r.discovery && Some(id) in r.discovery[t]
  }

  lemma {:induction false} EndpointsListen(host: Name, web: seq<WebEntry>, k: nat, e: Endpoint)
    requires k <= |web|
    ensures e in EndpointsUpTo(host, web, k) <==>
            e.host == host && Entry(if e.family == INET then AnyV4 else AnyV6, e.port) in web[..k]
  {
    if k > 0 {
      EndpointsListen(host, web, k - 1, e);
      assert web[..k] == web[..k - 1] + [web[k - 1]];
    }
  }

  /**
   In terms of the record alone: it offers its host and the port of each web entry, "0.0.0.0" for IPv4 and "::"
   for IPv6, under each identifier it carries.
   */
  lemma OffersExactly(r: Record, x: Offer)
    ensures Offers(r, x) <==>
            r.host == Some(x.e.host) && ListensAt(r, x.e.port, x.e.family) && Carries(r, x.t, x.id)
  {
    if r.host.Some? && r.web.Some? {
      EndpointsListen(r.host.value, r.web.value, |r.web.value|, x.e);
      assert r.web.value[..|r.web.value|] == r.web.value;
    }
  }

  function OffersOf(r: Record): (res: set<Offer>)
    ensures forall x :: x in res <==> Offers(r, x)
  {
    set t, k, e | t in Ids(r) && 0 <= k < |Ids(r)[t]| && Ids(r)[t][k].Some? && e in Endpoints(r)
      :: Offer(t, Ids(r)[t][k].value, e)
  }

  function AllOffers(raw: Raw): set<Offer>
  {
    set n, x | n in raw && x in OffersOf(raw[n]) :: x
  }

  /** Some record of the table makes the offer `x`. */
  ghost predicate Offered(raw: Raw, x: Offer)
  {
    exists n :: n in raw && Offers(raw[n], x)
  }

  lemma AllOffersHas(raw: Raw, x: Offer)
    ensures x in AllOffers(raw) <==> Offered(raw, x)
  {
    if x in AllOffers(raw) {
      var n :| n in raw && x in OffersOf(raw[n]);
      assert Offers(raw[n], x);
    }
    if Offered(raw, x) {
      var n :| n in raw && Offers(raw[n], x);
      assert x in OffersOf(raw[n]);
    }
  }

  /** The identifier types of the index: the two standard ones and those of records with an endpoint. */
  function Types(raw: Raw): set<IdType>
  {
    {InstanceId, ServiceId} + set n, t | n in raw && t in TypesOf(raw[n]) :: t
  }

  /** The identifier types of a record; one without endpoints leaves no trace in the index. */
  function TypesOf(r: Record): set<IdType>
  {
    if Endpoints(r) != {} then Ids(r).Keys else {}
  }

  /** The nested dictionary that holds the given types and offers, and no empty set. */
  function Nest(types: set<IdType>, offers: set<Offer>): Cache
  {
    map t | t in types :: NestRow(offers, t)
  }

  function NestRow(offers: set<Offer>, t: IdType): Row
  {
    map x | x in offers && x.t == t :: x.id := NestSet(offers, t, x.id)
  }

  function NestSet(offers: set<Offer>, t: IdType, id: Name): set<Endpoint>
  {
    set x | x in offers && x.t == t && x.id == id :: x.e
  }

  /** The index of a raw table. */
  function Index(raw: Raw): Cache
  {
    Nest(Types(raw), AllOffers(raw))
  }

  /** What a direct scan of the raw table finds: some record offers `e` under an identifier asked for. */
  ghost predicate ScanFinds(raw: Raw, query: map<IdType, Name>, e: Endpoint)
  {
    exists t :: t in query && Offered(raw, Offer(t, query[t], e))
  }

  /** `e` is listed under type `t` and identifier `id`. */
  predicate Listed(cache: Cache, t: IdType, id: Name, e: Endpoint)
  {
    t in cache && id in cache[t] && e in cache[t][id]
  }

  ghost predicate CacheFinds(cache: Cache, query: map<IdType, Name>, e: Endpoint)
  {
    exists t :: t in query && Listed(cache, t, query[t], e)
  }

  lemma NestLists(types: set<IdType>, offers: set<Offer>, t: IdType, id: Name, e: Endpoint)
    ensures Listed(Nest(types, offers), t, id, e) <==> t in types && Offer(t, id, e) in offers
  {
    if t in types {
      var row := NestRow(offers, t);
      assert Nest(types, offers)[t] == row;
      var x := Offer(t, id, e);
      if x in offers { assert x.t == t && x.id in row && e in NestSet(offers, t, id); }
      if id in row && e in row[id] { assert e in NestSet(offers, t, id); }
    }
  }

  lemma OfferedTypes(raw: Raw, x: Offer)
    requires Offered(raw, x)
    ensures x.t in Types(raw)
  {
    var n :| n in raw && Offers(raw[n], x);
    assert x.t in TypesOf(raw[n]);
  }

  /** The index lists exactly the offers of the raw table. */
  lemma IndexListsOffers(raw: Raw, t: IdType, id: Name, e: Endpoint)
    ensures Listed(Index(raw), t, id, e) <==> Offered(raw, Offer(t, id, e))
  {
    var x := Offer(t, id, e);
    NestLists(Types(raw), AllOffers(raw), t, id, e);
    AllOffersHas(raw, x);
    if Offered(raw, x) { OfferedTypes(raw, x); }
  }

  /** Looking identifiers up in the index finds exactly what a scan of the raw table finds. */
  lemma IndexAnswersLikeScan(raw: Raw, query: map<IdType, Name>, e: Endpoint)
    ensures CacheFinds(Index(raw), query, e) <==> ScanFinds(raw, query, e)
  {
    forall t | t in query
      ensures Listed(Index(raw), t, query[t], e) <==> Offered(raw, Offer(t, query[t], e))
    {
      IndexListsOffers(raw, t, query[t], e);
    }
  }

  /** What a scan finds, in terms of the records alone. */
  lemma ScanFindsExactly(raw: Raw, query: map<IdType, Name>, e: Endpoint)
    ensures ScanFinds(raw, query, e) <==>
            exists n, t :: n in raw && t in query && raw[n].host == Some(e.host) &&
                           ListensAt(raw[n], e.port, e.family) && Carries(raw[n], t, query[t])
  {
    forall n, t | n in raw && t in query
      ensures Offers(raw[n], Offer(t, query[t], e)) <==>
              raw[n].host == Some(e.host) && ListensAt(raw[n], e.port, e.family) && Carries(raw[n], t, query[t])
    {
      OffersExactly(raw[n], Offer(t, query[t], e));
    }
    if n, t :| n in raw && t in query && raw[n].host == Some(e.host) && ListensAt(raw[n], e.port, e.family) &&
               Carries(raw[n], t, query[t])
    {
      assert Offers(raw[n], Offer(t, query[t], e));
    }
  }

  /** Adding one endpoint to the nested dictionary, as the innermost loop does it. */
  lemma NestInsert(types: set<IdType>, offers: set<Offer>, x: Offer)
    requires x.t in types
    ensures var row := Nest(types, offers)[x.t];
            var es := if x.id in row then row[x.id] + {x.e} else {x.e};
            Nest(types, offers + {x}) == Nest(types, offers)[x.t := row[x.id := es]]
  {
    var row := Nest(types, offers)[x.t];
    var es := if x.id in row then row[x.id] + {x.e} else {x.e};
    var offers' := offers + {x};
    forall t | t in types
      ensures NestRow(offers', t) == if t == x.t then row[x.id := es] else NestRow(offers, t)
    {
      var row' := if t == x.t then row[x.id := es] else NestRow(offers, t);
      forall id ensures id in NestRow(offers', t) <==> id in row' {
        if id in NestRow(offers', t) {
          var y :| y in offers' && y.t == t && y.id == id;
        }
        if id in row' {
          if t == x.t && id == x.id { assert x in offers' && x.t == t && x.id == id; }
          else { var y :| y in offers && y.t == t && y.id == id; assert y in offers'; }
        }
      }
      forall id | id in row' ensures NestSet(offers', t, id) == row'[id] {
      }
    }
  }

  predicate Closed(types: set<IdType>, offers: set<Offer>)
  {
    forall x :: x in offers ==> x.t in types
  }

  /** Entering a type in the nested dictionary, unless it is there. */
  lemma NestType(types: set<IdType>, offers: set<Offer>, t: IdType)
    requires Closed(types, offers)
    ensures Nest(types + {t}, offers) == if t in types then Nest(types, offers) else Nest(types, offers)[t := map[]]
  {
    if t in types {
      assert types + {t} == types;
    } else {
      assert NestRow(offers, t) == map[];
    }
  }

  /** Some record under another name than `item` makes the offer. */
  ghost predicate OfferedByOthers(raw: Raw, item: Name, x: Offer)
  {
    exists n :: n in raw && n != item && Offers(raw[n], x)
  }

  lemma ChangedOffers(raw: Raw, item: Name, data: Record, x: Offer)
    ensures Offered(raw[item := data], x) <==> Offers(data, x) || OfferedByOthers(raw, item, x)
  {
    var raw' := raw[item := data];
    if Offers(data, x) { assert item in raw' && Offers(raw'[item], x); }
    if OfferedByOthers(raw, item, x) {
      var n :| n in raw && n != item && Offers(raw[n], x);
      assert n in raw' && Offers(raw'[n], x);
    }
  }

  lemma DeletedOffers(raw: Raw, item: Name, x: Offer)
    ensures Offered(raw - {item}, x) <==> OfferedByOthers(raw, item, x)
  {
    var raw' := raw - {item};
    if OfferedByOthers(raw, item, x) {
      var n :| n in raw && n != item && Offers(raw[n], x);
      assert n in raw' && Offers(raw'[n], x);
    }
  }

  /* -------------------------------------------------------------- service */

  /** The table a scan result leads to: later entries of the same name win. */
  function TableOf(items: seq<(Name, Record)>): Raw
  {
    if items == [] then map[] else TableOf(items[..|items| - 1])[items[|items| - 1].0 := items[|items| - 1].1]
  }

  /** A name has the record of its last item. */
  lemma {:induction false} TableOfExactly(items: seq<(Name, Record)>, n: Name, r: Record)
    ensures (n, r) in TableOf(items).Items <==>
            exists k :: 0 <= k < |items| && items[k] == (n, r) && forall j :: k < j < |items| ==> items[j].0 != n
  {
    if items != [] {
      var last := |items| - 1;
      TableOfExactly(items[..last], n, r);
      if items[last].0 == n {
        if (n, r) in TableOf(items).Items { assert items[last] == (n, r); }
      } else {
        if (n, r) in TableOf(items[..last]).Items {
          var k :| 0 <= k < last && items[..last][k] == (n, r) && forall j :: k < j < last ==> items[..last][j].0 != n;
          assert forall j :: k < j < last ==> items[..last][j] == items[j];
          assert items[k] == (n, r);
        }
        if k :| 0 <= k < |items| && items[k] == (n, r) && forall j :: k < j < |items| ==> items[j].0 != n {
          assert items[..last][k] == (n, r);
        }
      }
    }
  }

  lemma TableOfNext(items: seq<(Name, Record)>, i: nat)
    requires i < |items|
    ensures TableOf(items[..i + 1]) == TableOf(items[..i])[items[i].0 := items[i].1]
  {
    assert items[..i + 1][..i] == items[..i];
  }

  /**
   The state of `DiscoveryService`.  Each method is the code between two points where the event loop may
   run something else; module DiscoveryTasks interleaves them.
   */
  class DiscoveryService {
    var advertisedRaw: Raw
    var advertisedCache: Cache
    var ready: bool

    constructor ()
      ensures advertisedRaw == map[] && advertisedCache == map[] && !ready
    {
      advertisedRaw, advertisedCache, ready := map[], map[], false;
    }

    /** A CREATED or CHANGED watch event: the new record's offers replace those of the old one, if any. */
    method RecordChange(item: Name, data: Record)
      modifies this`advertisedRaw
      ensures forall x :: Offered(advertisedRaw, x) <==> Offers(data, x) || OfferedByOthers(old(advertisedRaw), item, x)
      ensures advertisedRaw == old(advertisedRaw)[item := data]
    {
      advertisedRaw := advertisedRaw[item := data];
      forall x ensures Offered(advertisedRaw, x) <==> Offers(data, x) || OfferedByOthers(old(advertisedRaw), item, x) {
        ChangedOffers(old(advertisedRaw), item, data, x);
      }
    }

    /**
     A DELETED watch event: only the offers of the other records are left.  `known` tells whether the record was
     there; if it was not, nothing has changed and no cache has to be rebuilt.
     */
    method RecordDelete(item: Name) returns (known: bool)
      modifies this`advertisedRaw
      ensures forall x :: Offered(advertisedRaw, x) <==> OfferedByOthers(old(advertisedRaw), item, x)
      ensures !known ==> advertisedRaw == old(advertisedRaw) && advertisedCache == old(advertisedCache)
      ensures known == (item in old(advertisedRaw)) && advertisedRaw == old(advertisedRaw) - {item}
    {
      known := item in advertisedRaw;
      advertisedRaw := advertisedRaw - {item};
      forall x ensures Offered(advertisedRaw, x) <==> OfferedByOthers(old(advertisedRaw), item, x) {
        DeletedOffers(old(advertisedRaw), item, x);
      }
    }

    /** Replaces the raw table by the items of a full scan. */
    method SwapScanned(items: seq<(Name, Record)>)
      modifies this`advertisedRaw
      ensures advertisedRaw == TableOf(items)
    {
      ghost var was, seen: Raw := advertisedRaw.Keys, map[];
      var prevKeys := advertisedRaw.Keys;
      var i := 0;
      while i < |items|
        invariant 0 <= i <= |items|
        invariant seen == TableOf(items[..i])
        invariant forall n :: n in advertisedRaw <==> n in was || n in seen
        invariant forall n :: n in prevKeys <==> n in was && n !in seen
        invariant forall n :: n in seen ==> advertisedRaw[n] == seen[n]
      {
        var (item, data) := items[i];
        TableOfNext(items, i);
        seen := seen[item := data];
        advertisedRaw := advertisedRaw[item := data];
        prevKeys := prevKeys - {item};
        i := i + 1;
      }
      assert items[..i] == items;
      while prevKeys != {}
        invariant seen.Keys !! prevKeys
        invariant forall n :: n in advertisedRaw <==> n in seen || n in prevKeys
        invariant forall n :: n in seen ==> advertisedRaw[n] == seen[n]
        decreases |prevKeys|
      {
        var item :| item in prevKeys;
        advertisedRaw := advertisedRaw - {item};
        prevKeys := prevKeys - {item};
      }
    }

    /** Rebuilds the cache from the raw table. */
    method ApplyAdvertisedRaw()
      modifies this`advertisedCache, this`ready
      ensures advertisedCache == Index(advertisedRaw) && ready
    {
      var advertised: Cache := map[InstanceId := map[], ServiceId := map[]];
      var todo := advertisedRaw.Keys;
      ghost var done: Raw := map[];
      EmptyIndex();
      while todo != {}
        invariant todo <= advertisedRaw.Keys
        invariant forall n :: n in done <==> n in advertisedRaw && n !in todo
        invariant forall n :: n in done ==> done[n] == advertisedRaw[n]
        invariant advertised == Index(done)
        decreases |todo|
      {
        var n :| n in todo;
        var r := advertisedRaw[n];
        todo := todo - {n};
        advertised := IndexRecord(advertised, done, n, r);
        done := done[n := r];
      }
      assert done == advertisedRaw;
      advertisedCache := advertised;
      ready := true;
    }

    /** `_locate` after the wait for readiness; over an up-to-date cache it finds what a direct scan would. */
    method Locate(query: map<IdType, Name>) returns (res: set<Endpoint>)
      ensures forall e :: e in res <==> CacheFinds(advertisedCache, query, e)
      ensures advertisedCache == Index(advertisedRaw) ==> forall e :: e in res <==> ScanFinds(advertisedRaw, query, e)
    {
      forall e ensures CacheFinds(Index(advertisedRaw), query, e) <==> ScanFinds(advertisedRaw, query, e) {
        IndexAnswersLikeScan(advertisedRaw, query, e);
      }
      res := LocateIn(advertisedCache, query);
    }
  }

  /** Is there any endpoint in the cache at all? */
  method HasAdvertisedEndpoints(cache: Cache) returns (any: bool)
    ensures any <==> exists t, id, e :: Listed(cache, t, id, e)
  {
    var types := cache.Keys;
    while types != {}
      invariant types <= cache.Keys
      invariant forall t, id, e :: Listed(cache, t, id, e) ==> t in types
      decreases |types|
    {
      var t :| t in types;
      var ids := cache[t].Keys;
      while ids != {}
        invariant ids <= cache[t].Keys
        invariant forall id, e :: Listed(cache, t, id, e) ==> id in ids
        decreases |ids|
      {
        var id :| id in ids;
        if cache[t][id] != {} {
          ghost var e :| e in cache[t][id];
          assert Listed(cache, t, id, e);
          return true;
        }
        ids := ids - {id};
      }
      types := types - {t};
    }
    return false;
  }

  /** `_locate` once the service is ready: the union over the identifier types that are asked for. */
  method LocateIn(cache: Cache, query: map<IdType, Name>) returns (res: set<Endpoint>)
    ensures forall e :: e in res <==> CacheFinds(cache, query, e)
  {
    res := {};
    var any := HasAdvertisedEndpoints(cache);
    if !any { return; }
    var todo := cache.Keys;
    while todo != {}
      invariant todo <= cache.Keys
      invariant forall e :: e in res <==> exists t :: t in query && t !in todo && Listed(cache, t, query[t], e)
      decreases |todo|
    {
      var idType :| idType in todo;
      ghost var before := res;
      if idType in query && query[idType] in cache[idType] {
        res := res + cache[idType][query[idType]];
      }
      forall e | e in res && e !in before
        ensures idType in query && Listed(cache, idType, query[idType], e)
      {}
      todo := todo - {idType};
    }
  }

  lemma EmptyIndex()
    ensures Types(map[]) == {InstanceId, ServiceId} && AllOffers(map[]) == {}
    ensures Nest({InstanceId, ServiceId}, {}) == map[InstanceId := map[], ServiceId := map[]]
  {
    assert NestRow({}, InstanceId) == map[];
    assert NestRow({}, ServiceId) == map[];
  }

  lemma GrowOffers(done: Raw, n: Name, r: Record)
    requires n !in done
    ensures AllOffers(done[n := r]) == AllOffers(done) + OffersOf(r)
  {
    var table := done[n := r];
    forall x ensures x in AllOffers(table) <==> x in AllOffers(done) || x in OffersOf(r) {
      AllOffersHas(table, x);
      AllOffersHas(done, x);
      ChangedOffers(done, n, r, x);
      if Offered(done, x) { var m :| m in done && Offers(done[m], x); }
    }
  }

  lemma GrowTypes(done: Raw, n: Name, r: Record)
    requires n !in done
    ensures Types(done[n := r]) == Types(done) + TypesOf(r)
  {
    var table := done[n := r];
    forall t | t in Types(table) && t !in {InstanceId, ServiceId} ensures t in Types(done) + TypesOf(r) {
      var m :| m in table && t in TypesOf(table[m]);
      if m != n { assert m in done && t in TypesOf(done[m]); }
    }
    forall t | t in Types(done) && t !in {InstanceId, ServiceId} ensures t in Types(table) {
      var m :| m in done && t in TypesOf(done[m]);
      assert m in table && t in TypesOf(table[m]);
    }
    forall t | t in TypesOf(r) ensures t in Types(table) {
      assert n in table && t in TypesOf(table[n]);
    }
  }

  lemma IndexIsClosed(raw: Raw)
    ensures Closed(Types(raw), AllOffers(raw))
  {
    forall x | x in AllOffers(raw) ensures x.t in Types(raw) {
      AllOffersHas(raw, x);
      OfferedTypes(raw, x);
    }
  }

  /** One more record makes an index of the table into the index of the table with that record. */
  method IndexRecord(advertised0: Cache, ghost done: Raw, ghost n: Name, r: Record) returns (advertised: Cache)
    requires advertised0 == Index(done) && n !in done
    ensures advertised == Index(done[n := r])
  {
    IndexIsClosed(done);
    GrowTypes(done, n, r);
    GrowOffers(done, n, r);
    ghost var types, offers;
    advertised, types, offers := AddRecord(advertised0, r, Types(done), AllOffers(done));
    assert offers == AllOffers(done) + OffersOf(r);
  }

  /** One record of the raw table: the body of the outer loop. */
  method AddRecord(advertised0: Cache, r: Record, ghost types0: set<IdType>, ghost offers0: set<Offer>)
    returns (advertised: Cache, ghost types: set<IdType>, ghost offers: set<Offer>)
    requires advertised0 == Nest(types0, offers0) && Closed(types0, offers0)
    ensures advertised == Nest(types, offers) && Closed(types, offers)
    ensures types == types0 + TypesOf(r)
    ensures forall x :: x in offers <==> x in offers0 || Offers(r, x)
  {
    advertised, types, offers := advertised0, types0, offers0;
    var discovery := r.discovery;
    if r.instanceId.Some? {
      discovery := discovery[InstanceId := [r.instanceId]];
    }
    if r.serviceId.Some? {
      discovery := discovery[ServiceId := [r.serviceId]];
    }
    assert discovery == Ids(r);
    if r.host.None? || r.web.None? { return; }
    var host, web := r.host.value, r.web.value;
    var k := 0;
    while k < |web|
      invariant 0 <= k <= |web|
      invariant advertised == Nest(types, offers) && Closed(types, offers)
      invariant types == types0 + (if EndpointsUpTo(host, web, k) != {} then discovery.Keys else {})
      invariant forall x :: x in offers <==>
                  x in offers0 || (x.e in EndpointsUpTo(host, web, k) && Names(discovery, x.t, x.id))
    {
      var i := web[k];
      k := k + 1;
      if i.Malformed? { continue; }
      var family: Family;
      if i.ip.AnyV4? {
        family := INET;
      } else if i.ip.AnyV6? {
        family := INET6;
      } else {
        continue;
      }
      advertised, types, offers := AddEndpoint(advertised, discovery, Endpoint(host, i.port, family), types, offers);
    }
  }

  /** One endpoint under all identifiers of its record: the loop over identifier types. */
  method AddEndpoint(advertised0: Cache, discovery: map<IdType, seq<Option<Name>>>, e: Endpoint,
                     ghost types0: set<IdType>, ghost offers0: set<Offer>)
    returns (advertised: Cache, ghost types: set<IdType>, ghost offers: set<Offer>)
    requires advertised0 == Nest(types0, offers0) && Closed(types0, offers0)
    ensures advertised == Nest(types, offers) && Closed(types, offers)
    ensures types == types0 + discovery.Keys
    ensures forall x :: x in offers <==> x in offers0 || (x.e == e && Names(discovery, x.t, x.id))
  {
    advertised, types, offers := advertised0, types0, offers0;
    var todo := discovery.Keys;
    while todo != {}
      invariant todo <= discovery.Keys
      invariant types == types0 + (discovery.Keys - todo)
      invariant advertised == Nest(types, offers) && Closed(types, offers)
      invariant forall x :: x in offers <==>
                  x in offers0 || (x.e == e && x.t !in todo && Names(discovery, x.t, x.id))
      decreases |todo|
    {
      var idType :| idType in todo;
      todo := todo - {idType};
      NestType(types, offers, idType);
      if idType !in advertised {
        advertised := advertised[idType := map[]];
      }
      types := types + {idType};
      advertised, offers := AddIdentifiers(advertised, idType, discovery[idType], e, types, offers);
    }
  }

  /** One endpoint under all identifiers of one type: the innermost loop. */
  method AddIdentifiers(advertised0: Cache, idType: IdType, ids: seq<Option<Name>>, e: Endpoint,
                        ghost types: set<IdType>, ghost offers0: set<Offer>)
    returns (advertised: Cache, ghost offers: set<Offer>)
    requires idType in types && advertised0 == Nest(types, offers0) && Closed(types, offers0)
    ensures advertised == Nest(types, offers) && Closed(types, offers)
    ensures forall x :: x in offers <==> x in offers0 || (x.e == e && x.t == idType && Some(x.id) in ids)
  {
    advertised, offers := advertised0, offers0;
    var j := 0;
    while j < |ids|
      invariant 0 <= j <= |ids|
      invariant advertised == Nest(types, offers) && Closed(types, offers)
      invariant forall x :: x in offers <==> x in offers0 || (x.e == e && x.t == idType && Some(x.id) in ids[..j])
    {
      if ids[j].Some? {
        var identifier := ids[j].value;
        NestInsert(types, offers, Offer(idType, identifier, e));
        var row := advertised[idType];
        if identifier !in row {
          row := row[identifier := {e}];
        } else {
          row := row[identifier := row[identifier] + {e}];
        }
        advertised := advertised[idType := row];
        offers := offers + {Offer(idType, identifier, e)};
      }
      assert ids[..j + 1] == ids[..j] + [ids[j]];
      j := j + 1;
    }
    assert ids[..j] == ids;
  }
}
