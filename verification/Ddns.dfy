/**
  Dynamic DNS: bringing the records of a name to the current address at Aliyun,
  and the manager's pass over all domains with Cloudflare's rule about records
  the user has deleted.
*/
module Ddns {
  import opened Common

  // ------------------------------------------------------------ Aliyun zones

  datatype Record = Record(id: string, rr: string, kind: string, value: string)

  /** What the upsert is asked for. keyword is how the provider's RRKeyWord search
      matches; it finds at least the exact name. */
  datatype Want = Want(rr: string, kind: string, ip: string, keyword: (string, string) -> bool)

  const PAGE_SIZE: nat := 50

  predicate Hit(r: Record, w: Want) { r.kind == w.kind && w.keyword(r.rr, w.rr) }

  predicate Matches(r: Record, w: Want) { r.rr == w.rr && r.kind == w.kind }

  function Hits(zone: seq<Record>, w: Want): seq<Record> {
    if zone == [] then []
    else
      var n := |zone| - 1;
      Hits(zone[..n], w) + if Hit(zone[n], w) then [zone[n]] else []
  }

  /** The first page of the search. */
  function Page(zone: seq<Record>, w: Want): seq<Record> {
    var hits := Hits(zone, w);
    if |hits| <= PAGE_SIZE then hits else hits[..PAGE_SIZE]
  }

  function Exact(page: seq<Record>, w: Want): seq<Record> {
    if page == [] then []
    else
      var n := |page| - 1;
      Exact(page[..n], w) + if page[n].rr == w.rr then [page[n]] else []
  }

  /** A record the loop will update: it has an id and another address. */
  predicate Stale(r: Record, w: Want) { r.id != "" && r.value != w.ip }

  function StaleIds(rs: seq<Record>, w: Want): (ids: set<string>) {
    set r | r in rs && Stale(r, w) :: r.id
  }

  /** The provider's update: the record with that id gets these fields. */
  function Updated(zone: seq<Record>, ids: set<string>, w: Want): (z: seq<Record>)
    ensures |z| == |zone|
    ensures forall i | 0 <= i < |zone| ::
              z[i] == if zone[i].id in ids then Record(zone[i].id, w.rr, w.kind, w.ip) else zone[i]
  {
    seq(|zone|, i requires 0 <= i < |zone| => if zone[i].id in ids then Record(zone[i].id, w.rr, w.kind, w.ip)
        else zone[i])
  }

  function Upserted(zone: seq<Record>, w: Want, newId: string): seq<Record> {
    var exact := Exact(Page(zone, w), w);
    if exact == [] then zone + [Record(newId, w.rr, w.kind, w.ip)]
    else Updated(zone, StaleIds(exact, w), w)
  }

  /** Record ids are the provider's own, so they tell records apart. */
  ghost predicate UniqueIds(zone: seq<Record>) {
    forall i, j | 0 <= i < |zone| && 0 <= j < |zone| && i != j && zone[i].id != "" :: zone[i].id != zone[j].id
  }

  ghost predicate SearchFindsExact(w: Want) {
    w.keyword(w.rr, w.rr)
  }

  class AliyunZone {
    var records: seq<Record>
    var writes: nat

    constructor (zone: seq<Record>)
      ensures records == zone && writes == 0
    {
      records, writes := zone, 0;
    }

    /** Look up, then create, or update record by record. fails(n) tells whether
        the n-th write request fails. */
    method Upsert(w: Want, newId: string, lookupFails: bool, fails: nat -> bool) returns (ok: bool)
      requires UniqueIds(records)
      modifies this
      ensures ok ==> records == Upserted(old(records), w, newId)
      ensures ok ==>
                var exact := Exact(Page(old(records), w), w);
                writes == old(writes) <==> exact != [] && StaleIds(exact, w) == {}
      ensures !ok ==> |records| == |old(records)| && forall i | 0 <= i < |records| ::
                records[i] == old(records)[i] || (Matches(old(records)[i], w)
                    && records[i] == old(records)[i].(value := w.ip))
    {
      hide Page, Hits;
      if lookupFails { return false; }
      var exact := Exact(Page(records, w), w);
      ghost var zone := records;
      if exact == [] {
        if fails(0) { return false; }
        records := records + [Record(newId, w.rr, w.kind, w.ip)];
        writes := writes + 1;
      } else {
        for i := 0 to |exact|
          invariant records == Updated(zone, StaleIds(exact[..i], w), w)
          invariant writes >= old(writes) && (writes == old(writes) <==> StaleIds(exact[..i], w) == {})
        {
          var r := exact[i];
          assert exact[..i + 1] == exact[..i] + [r];
          assert StaleIds(exact[..i + 1], w) == StaleIds(exact[..i], w) + if Stale(r, w) then {r.id} else {};
          if r.id != "" && r.value != w.ip {
            if fails(i) {
              OnlyMatchingUpdated(zone, exact[..i], w);
              return false;
            }
            records := Updated(records, {r.id}, w);
            writes := writes + 1;
          }
        }
        assert exact[..|exact|] == exact;
      }
      return true;
    }
  }

  lemma {:induction false} HitsAreHits(zone: seq<Record>, w: Want)
    ensures forall r :: r in Hits(zone, w) <==> r in zone && Hit(r, w)
  {
    if zone != [] {
      var n := |zone| - 1;
      assert zone == zone[..n] + [zone[n]];
      HitsAreHits(zone[..n], w);
    }
  }

  lemma {:induction false} ExactAreExact(page: seq<Record>, w: Want)
    ensures forall r :: r in Exact(page, w) <==> r in page && r.rr == w.rr
  {
    if page != [] {
      var n := |page| - 1;
      assert page == page[..n] + [page[n]];
      ExactAreExact(page[..n], w);
    }
  }

  /** The records the upsert gets to see: on the page, with the exact name. */
  predicate Visible(r: Record, zone: seq<Record>, w: Want) {
    r in Page(zone, w) && Matches(r, w)
  }

  lemma VisibleExactly(zone: seq<Record>, w: Want)
    ensures forall r :: r in Exact(Page(zone, w), w) <==> Visible(r, zone, w)
    ensures forall r :: Visible(r, zone, w) ==> r in zone
  {
    hide Hits, Exact;
    HitsAreHits(zone, w);
    ExactAreExact(Page(zone, w), w);
    assert forall r <- Page(zone, w) :: r in Hits(zone, w);
  }

  lemma OnlyMatchingUpdated(zone: seq<Record>, seen: seq<Record>, w: Want)
    requires UniqueIds(zone) && seen <= Exact(Page(zone, w), w)
    ensures var z := Updated(zone, StaleIds(seen, w), w);
            forall i | 0 <= i < |zone| :: z[i] == zone[i] || (Matches(zone[i], w) && z[i] == zone[i].(value := w.ip))
  {
    hide Page, Exact;
    var ids := StaleIds(seen, w);
    VisibleExactly(zone, w);
    forall i | 0 <= i < |zone| && zone[i].id in ids ensures Matches(zone[i], w) {
      var r :| r in seen && Stale(r, w) && r.id == zone[i].id;
      assert r in Exact(Page(zone, w), w);
      var j :| 0 <= j < |zone| && zone[j] == r;
    }
  }

  /** The address is in place: some record of the name and type exists, and all
      of them that have an id carry it. */
  ghost predicate Converged(zone: seq<Record>, w: Want) {
    && (exists r <- zone :: Matches(r, w))
    && (forall r <- zone :: Matches(r, w) && r.id != "" ==> r.value == w.ip)
  }

  /** After a successful upsert there is a record of the name and type, records of
      other names or types are untouched, and the address is in place everywhere
      exactly when no record that the first page leaves out had another one. */
  lemma UpsertConverges(zone: seq<Record>, w: Want, newId: string)
    requires UniqueIds(zone)
    ensures var after := Upserted(zone, w, newId);
            && (exists r <- after :: Matches(r, w))
            && |after| >= |zone|
            && (forall i | 0 <= i < |zone| :: !Matches(zone[i], w) ==> after[i] == zone[i])
            && (forall i | |zone| <= i < |after| :: after[i] == Record(newId, w.rr, w.kind, w.ip))
            && (Converged(after, w) <==>
                  forall r <- zone :: Matches(r, w) && r.id != "" && !Visible(r, zone, w) ==> r.value == w.ip)
  {
    hide Page, Exact, Matches, Visible;
    var after := Upserted(zone, w, newId);
    var exact := Exact(Page(zone, w), w);
    VisibleExactly(zone, w);
    if exact == [] {
      CreatedConverges(zone, w, newId);
    } else {
      UpdatedConverges(zone, w, exact);
    }
  }

  lemma CreatedConverges(zone: seq<Record>, w: Want, newId: string)
    requires forall r :: !Visible(r, zone, w)
    ensures var after := zone + [Record(newId, w.rr, w.kind, w.ip)];
            && (exists r <- after :: Matches(r, w))
            && (Converged(after, w) <==>
                  forall r <- zone :: Matches(r, w) && r.id != "" && !Visible(r, zone, w) ==> r.value == w.ip)
  {
    hide Visible;
    var made := Record(newId, w.rr, w.kind, w.ip);
    var after := zone + [made];
    assert after[|zone|] == made && Matches(made, w) && made in after;
    assert forall r :: r in after <==> r in zone || r == made;
  }

  lemma UpdatedConverges(zone: seq<Record>, w: Want, exact: seq<Record>)
    requires UniqueIds(zone) && exact != [] && exact == Exact(Page(zone, w), w)
    requires forall r :: r in exact <==> Visible(r, zone, w)
    requires forall r :: Visible(r, zone, w) ==> r in zone
    ensures var after := Updated(zone, StaleIds(exact, w), w);
            && (exists r <- after :: Matches(r, w))
            && (forall i | 0 <= i < |zone| :: !Matches(zone[i], w) ==> after[i] == zone[i])
            && (Converged(after, w) <==>
                  forall r <- zone :: Matches(r, w) && r.id != "" && !Visible(r, zone, w) ==> r.value == w.ip)
  {
    hide Page, Exact;
    var ids := StaleIds(exact, w);
    var after := Updated(zone, ids, w);
    OnlyMatchingUpdated(zone, exact, w);
    assert exact[0] in exact;
    var k :| 0 <= k < |zone| && zone[k] == exact[0];
    assert after[k] in after && Matches(after[k], w);
    forall i | 0 <= i < |zone| && Matches(zone[i], w) && zone[i].id != ""
      ensures after[i].value == w.ip <==> Visible(zone[i], zone, w) || zone[i].value == w.ip
      ensures Matches(after[i], w) && after[i].id == zone[i].id
    {
      if Visible(zone[i], zone, w) {
        assert zone[i] in exact;
        if zone[i].value != w.ip { assert Stale(zone[i], w) && zone[i].id in ids; }
      }
    }
    if Converged(after, w) {
      forall r <- zone | Matches(r, w) && r.id != "" && !Visible(r, zone, w) ensures r.value == w.ip {
        var i :| 0 <= i < |zone| && zone[i] == r;
        assert after[i] in after;
      }
    }
    if forall r <- zone :: Matches(r, w) && r.id != "" && !Visible(r, zone, w) ==> r.value == w.ip {
      forall r <- after | Matches(r, w) && r.id != "" ensures r.value == w.ip {
        var i :| 0 <= i < |after| && after[i] == r;
        assert zone[i] in zone;
      }
    }
  }

  /** The records in front of the i-th that the search finds as well. */
  function FoundBefore(zone: seq<Record>, w: Want, i: nat): set<nat> {
    set k: nat | k < i && k < |zone| && zone[k].kind == w.kind && w.keyword(zone[k].rr, w.rr)
  }

  lemma {:induction false} HitsCount(zone: seq<Record>, w: Want)
    ensures |Hits(zone, w)| == |FoundBefore(zone, w, |zone|)|
  {
    if zone != [] {
      var n := |zone| - 1;
      HitsCount(zone[..n], w);
      var found := FoundBefore(zone[..n], w, n);
      assert FoundBefore(zone, w, |zone|) == found + if Hit(zone[n], w) then {n} else {};
    }
  }

  lemma {:induction false} HitAt(zone: seq<Record>, w: Want, i: nat)
    requires i < |zone| && Hit(zone[i], w)
    ensures |Hits(zone[..i], w)| < |Hits(zone, w)| && Hits(zone, w)[|Hits(zone[..i], w)|] == zone[i]
    decreases |zone|
  {
    var n := |zone| - 1;
    if i < n {
      HitAt(zone[..n], w, i);
      assert zone[..n][..i] == zone[..i];
    }
  }

  lemma {:induction false} HitFrom(zone: seq<Record>, w: Want, k: nat) returns (i: nat)
    requires k < |Hits(zone, w)|
    ensures i < |zone| && Hit(zone[i], w) && |Hits(zone[..i], w)| == k && Hits(zone, w)[k] == zone[i]
    decreases |zone|
  {
    var n := |zone| - 1;
    if k < |Hits(zone[..n], w)| {
      i := HitFrom(zone[..n], w, k);
      assert zone[..n][..i] == zone[..i];
    } else {
      i := n;
    }
  }

  /** Seen by the upsert are the records of the name and type that the search finds
      with fewer than fifty others in front. */
  lemma VisibleMeans(zone: seq<Record>, w: Want, r: Record)
    ensures Visible(r, zone, w) <==>
              && r.rr == w.rr && r.kind == w.kind && w.keyword(r.rr, w.rr)
              && exists i | 0 <= i < |zone| :: zone[i] == r && |FoundBefore(zone, w, i)| < 50
  {
    hide Hits, FoundBefore;
    forall i: nat | i < |zone| ensures |FoundBefore(zone, w, i)| == |Hits(zone[..i], w)| {
      HitsCount(zone[..i], w);
      SameBefore(zone, w, i);
    }
    if Visible(r, zone, w) {
      var k :| 0 <= k < |Page(zone, w)| && Page(zone, w)[k] == r;
      var i := HitFrom(zone, w, k);
      assert zone[i] == r && |FoundBefore(zone, w, i)| < 50;
    }
    if r.rr == w.rr && r.kind == w.kind && w.keyword(r.rr, w.rr) {
      forall i: nat | i < |zone| && zone[i] == r && |FoundBefore(zone, w, i)| < 50 ensures Visible(r, zone, w) {
        HitAt(zone, w, i);
        assert Page(zone, w)[|Hits(zone[..i], w)|] == r;
      }
    }
  }

  lemma SameBefore(zone: seq<Record>, w: Want, i: nat)
    requires i <= |zone|
    ensures FoundBefore(zone[..i], w, i) == FoundBefore(zone, w, i)
  {
  }

  // ------------------------------------------------------- upserting again

  lemma {:induction false} HitsAfterUpdate(zone: seq<Record>, ids: set<string>, w: Want)
    requires forall r <- zone :: r.id in ids ==> Matches(r, w)
    ensures Hits(Updated(zone, ids, w), w) == Updated(Hits(zone, w), ids, w)
  {
    if zone != [] {
      var n := |zone| - 1;
      assert zone == zone[..n] + [zone[n]];
      HitsAfterUpdate(zone[..n], ids, w);
      var z := Updated(zone, ids, w);
      assert z[..n] == Updated(zone[..n], ids, w);
    }
  }

  lemma {:induction false} ExactAfterUpdate(page: seq<Record>, ids: set<string>, w: Want)
    requires forall r <- page :: r.id in ids ==> r.rr == w.rr
    ensures Exact(Updated(page, ids, w), w) == Updated(Exact(page, w), ids, w)
  {
    if page != [] {
      var n := |page| - 1;
      assert page == page[..n] + [page[n]];
      ExactAfterUpdate(page[..n], ids, w);
      var p := Updated(page, ids, w);
      assert p[..n] == Updated(page[..n], ids, w);
    }
  }

  /** An upsert writes nothing. */
  predicate Silent(zone: seq<Record>, w: Want) {
    var exact := Exact(Page(zone, w), w);
    exact != [] && StaleIds(exact, w) == {}
  }

  lemma UpdatedIsSilent(zone: seq<Record>, w: Want)
    requires UniqueIds(zone) && Exact(Page(zone, w), w) != []
    ensures Silent(Updated(zone, StaleIds(Exact(Page(zone, w), w), w), w), w)
  {
    hide Hits, Exact;
    var exact := Exact(Page(zone, w), w);
    var ids := StaleIds(exact, w);
    VisibleExactly(zone, w);
    forall r <- zone | r.id in ids ensures Matches(r, w) {
      var s :| s in exact && Stale(s, w) && s.id == r.id;
      var i :| 0 <= i < |zone| && zone[i] == r;
      var j :| 0 <= j < |zone| && zone[j] == s;
    }
    HitsAfterUpdate(zone, ids, w);
    var z := Updated(zone, ids, w);
    assert Page(z, w) == Updated(Page(zone, w), ids, w);
    HitsAreHits(zone, w);
    assert forall r <- Page(zone, w) :: r in Hits(zone, w);
    ExactAfterUpdate(Page(zone, w), ids, w);
    var again := Exact(Page(z, w), w);
    assert again == Updated(exact, ids, w);
    forall r <- again ensures !Stale(r, w) {
      var i :| 0 <= i < |again| && again[i] == r;
      assert exact[i] in exact;
      if Stale(exact[i], w) { assert exact[i].id in ids; }
    }
  }

  lemma HitsSnoc(zone: seq<Record>, r: Record, w: Want)
    ensures Hits(zone + [r], w) == Hits(zone, w) + if Hit(r, w) then [r] else []
  {
    assert (zone + [r])[..|zone|] == zone;
  }

  /** An immediate second upsert issues no write, exactly unless the first one had
      to create a record and the search already had a full page of hits. */
  lemma {:induction false} SecondUpsertIsSilent(zone: seq<Record>, w: Want, newId: string)
    requires UniqueIds(zone) && SearchFindsExact(w)
    ensures Silent(Upserted(zone, w, newId), w) <==>
              Exact(Page(zone, w), w) != [] || |Hits(zone, w)| < 50
  {
    hide Hits, Exact;
    if Exact(Page(zone, w), w) != [] {
      UpdatedIsSilent(zone, w);
    } else {
      var made := Record(newId, w.rr, w.kind, w.ip);
      HitsSnoc(zone, made, w);
      var page := Page(zone + [made], w);
      if |Hits(zone, w)| < PAGE_SIZE {
        assert page == Page(zone, w) + [made];
        ExactSnoc(Page(zone, w), made, w);
        assert Exact(page, w) == [made];
        assert !Stale(made, w);
      } else {
        assert page == Page(zone, w);
      }
    }
  }

  lemma ExactSnoc(page: seq<Record>, r: Record, w: Want)
    ensures Exact(page + [r], w) == Exact(page, w) + if r.rr == w.rr then [r] else []
  {
    assert (page + [r])[..|page|] == page;
  }

  /** Other names that the search finds as well, each with an id of its own. */
  function Crowd(n: nat): (zone: seq<Record>)
    ensures |zone| == n
    ensures forall i | 0 <= i < n :: zone[i] == Record(seq(i + 1, _ => 'x'), "other", "A", "1.1.1.1")
  {
    seq(n, i requires 0 <= i < n => Record(seq(i + 1, _ => 'x'), "other", "A", "1.1.1.1"))
  }

  lemma {:induction false} CrowdIsFound(zone: seq<Record>, w: Want)
    requires forall r <- zone :: Hit(r, w) && r.rr != w.rr
    ensures Hits(zone, w) == zone && Exact(zone, w) == []
  {
    if zone != [] {
      var n := |zone| - 1;
      assert zone == zone[..n] + [zone[n]] && zone[n] in zone;
      CrowdIsFound(zone[..n], w);
    }
  }

  lemma CrowdIds(n: nat, last: Record)
    requires 'x' !in last.id
    ensures UniqueIds(Crowd(n) + [last])
  {
    var zone := Crowd(n) + [last];
    forall i, j | 0 <= i < |zone| && 0 <= j < |zone| && i != j && zone[i].id != "" ensures zone[i].id != zone[j].id {
      assert i < n ==> |zone[i].id| == i + 1 && 'x' == zone[i].id[0];
      assert j < n ==> |zone[j].id| == j + 1 && 'x' == zone[j].id[0];
    }
  }

  /** Fifty such names in front of a stale record hide it: the upsert reports
      success, creates a second record, leaves the first as it was, and would
      create yet another one the next time. */
  lemma CrowdHidesRecord(id: string, newId: string) returns (zone: seq<Record>, w: Want)
    requires 'x' !in id
    ensures w.rr == "www" && w.kind == "A" && w.ip == "2.2.2.2" && SearchFindsExact(w)
    ensures |zone| == 51 && zone[50] == Record(id, "www", "A", "1.1.1.1")
    ensures UniqueIds(zone) && Upserted(zone, w, newId) == zone + [Record(newId, "www", "A", "2.2.2.2")]
    ensures Record(id, "www", "A", "1.1.1.1") in Upserted(zone, w, newId)
    ensures id != "" ==> !Converged(Upserted(zone, w, newId), w)
    ensures !Silent(Upserted(zone, w, newId), w)
  {
    hide Hits, Exact;
    var crowd := Crowd(PAGE_SIZE);
    var stale := Record(id, "www", "A", "1.1.1.1");
    w := Want("www", "A", "2.2.2.2", (_, _) => true);
    zone := crowd + [stale];
    CrowdIsFound(crowd, w);
    HitsSnoc(crowd, stale, w);
    assert Page(zone, w) == crowd;
    CrowdIds(PAGE_SIZE, stale);
    hide Crowd, UniqueIds;
    var after := Upserted(zone, w, newId);
    assert after[PAGE_SIZE] == stale && stale in after && Matches(stale, w);
    SecondUpsertIsSilent(zone, w, newId);
    assert |Hits(zone, w)| == PAGE_SIZE + 1;
  }

  // --------------------------------------------------- the manager's passes

  datatype Kind = A | AAAA

  datatype CfRecord = CfRecord(id: string, content: string)

  /** How Cloudflare answers one upsert: no zone, a lookup that fails, or the
      records it finds, with the fate of a create and of each update. */
  datatype CfAnswer =
    | NoZone
    | LookupFailed
    | Found(records: seq<CfRecord>, createOk: bool, updateOk: nat -> bool)

  function CacheKey(domain: string, kind: Kind): string {
    (if kind == A then "ddns_ipv4_" else "ddns_ipv6_") + domain
  }

  lemma CacheKeyInjective(d: string, k: Kind, d': string, k': Kind)
    ensures CacheKey(d, k) == CacheKey(d', k') <==> d == d' && k == k'
  {
    var x, y := CacheKey(d, k), CacheKey(d', k');
    assert x[10..] == d && y[10..] == d';
    assert x[8] == if k == A then '4' else '6';
    assert y[8] == if k' == A then '4' else '6';
  }

  datatype Manager = Manager(settings: map<string, string>, creates: map<(string, Kind), nat>)

  predicate Managed(m: Manager, domain: string, kind: Kind) {
    CacheKey(domain, kind) in m.settings && m.settings[CacheKey(domain, kind)] != ""
  }

  function Creates(m: Manager, domain: string, kind: Kind): nat {
    if (domain, kind) in m.creates then m.creates[(domain, kind)] else 0
  }

  /** A record the loop will update. */
  predicate Due(r: CfRecord, ip: string) {
    r.id != "" && r.content != "" && r.content != ip
  }

  predicate UpdatesGoThrough(a: CfAnswer, ip: string)
    requires a.Found?
  {
    forall i | 0 <= i < |a.records| :: Due(a.records[i], ip) ==> a.updateOk(i)
  }

  /** The records after the loop from the i-th on; the first refusal ends it. */
  function Moved(records: seq<CfRecord>, ip: string, updateOk: nat -> bool, i: nat): seq<CfRecord>
    requires i <= |records|
    decreases |records| - i
  {
    if i == |records| then records
    else if !Due(records[i], ip) then Moved(records, ip, updateOk, i + 1)
    else if !updateOk(i) then records
    else Moved(records[i := records[i].(content := ip)], ip, updateOk, i + 1)
  }

  /** One upsert: whether it ends Ok, and whether it created a record. */
  function CfUpsert(m: Manager, domain: string, ip: string, kind: Kind, a: CfAnswer): (bool, bool) {
    match a
    case NoZone => (false, false)
    case LookupFailed => (true, false)
    case Found(records, createOk, updateOk) =>
      if records == [] then
        if Managed(m, domain, kind) then (true, false) else (createOk, createOk)
      else (UpdatesGoThrough(a, ip), false)
  }

  /** The records listed for the name and type after an upsert that found them. */
  function Records(m: Manager, domain: string, ip: string, kind: Kind, a: CfAnswer, newId: string): seq<CfRecord>
    requires a.Found?
  {
    if a.records != [] then Moved(a.records, ip, a.updateOk, 0)
    else if CfUpsert(m, domain, ip, kind, a).1 then [CfRecord(newId, ip)]
    else []
  }

  lemma {:induction false} MovedExactly(records: seq<CfRecord>, ip: string, updateOk: nat -> bool, i: nat)
    requires i <= |records|
    ensures var z := Moved(records, ip, updateOk, i);
            && |z| == |records|
            && (forall k | 0 <= k < i :: z[k] == records[k])
            && (forall k | i <= k < |z| ::
                  z[k] == records[k] || (Due(records[k], ip) && z[k] == records[k].(content := ip)))
            && ((forall k | i <= k < |z| :: !Due(z[k], ip)) <==>
                  forall k | i <= k < |z| :: Due(records[k], ip) ==> updateOk(k))
    decreases |records| - i
  {
    if i < |records| {
      var next := if Due(records[i], ip) then records[i := records[i].(content := ip)] else records;
      MovedExactly(next, ip, updateOk, i + 1);
      assert forall k | i < k < |records| :: next[k] == records[k];
    }
  }

  /** What an upsert that found the name's records leaves: only records that were
      due are changed, and only to the address; it ends Ok exactly when no record is
      due any more and a create, if one was tried, was confirmed; and there is then
      no record at all exactly when the user has deleted a managed one. */
  lemma CloudflareConverges(m: Manager, domain: string, ip: string, kind: Kind, a: CfAnswer, newId: string)
    requires a.Found?
    ensures var (ok, created) := CfUpsert(m, domain, ip, kind, a);
            var after := Records(m, domain, ip, kind, a, newId);
            && (a.records != [] ==> |after| == |a.records| && !created && forall k | 0 <= k < |after| ::
                  after[k] == a.records[k] || (Due(a.records[k], ip) && after[k] == a.records[k].(content := ip)))
            && (a.records != [] ==> (ok <==> forall r <- after :: !Due(r, ip)))
            && (a.records == [] ==> after == if created then [CfRecord(newId, ip)] else [])
            && (ok ==> (after == [] <==> a.records == [] && Managed(m, domain, kind)))
  {
    hide Due, Managed;
    MovedExactly(a.records, ip, a.updateOk, 0);
    var after := Records(m, domain, ip, kind, a, newId);
    assert forall k | 0 <= k < |after| :: after[k] in after;
  }

  /** The record is up to date or cannot be changed. */
  predicate Settles(r: CfRecord, ip: string) {
    r.id == "" || r.content == "" || r.content == ip
  }

  /** From the first of these records to the last, none that needs it is refused. */
  predicate NoneRefused(records: seq<CfRecord>, ip: string, updateOk: nat -> bool, first: nat, last: int)
    requires last < |records|
  {
    forall j | first <= j <= last :: Settles(records[j], ip) || updateOk(j)
  }

  /** The update loop in full: up to the first one that is refused, every record
      that needs it gets the address; those behind it keep what they had. */
  lemma {:induction false} MovedMeans(records: seq<CfRecord>, ip: string, updateOk: nat -> bool, i: nat)
    requires i <= |records|
    ensures |Moved(records, ip, updateOk, i)| == |records|
    ensures forall k | 0 <= k < |records| ::
              Moved(records, ip, updateOk, i)[k] ==
                if k >= i && !Settles(records[k], ip) && NoneRefused(records, ip, updateOk, i, k)
                then CfRecord(records[k].id, ip) else records[k]
    decreases |records| - i
  {
    if i < |records| {
      var next := if Due(records[i], ip) then records[i := records[i].(content := ip)] else records;
      assert Due(records[i], ip) <==> !Settles(records[i], ip);
      MovedMeans(next, ip, updateOk, i + 1);
      hide Settles, Due;
      forall k | i < k < |records|
        ensures next[k] == records[k]
        ensures NoneRefused(records, ip, updateOk, i, k) <==>
                  (Settles(records[i], ip) || updateOk(i)) && NoneRefused(next, ip, updateOk, i + 1, k)
      {
        RefusedFrom(records, next, ip, updateOk, i, k);
      }
      assert NoneRefused(records, ip, updateOk, i, i) <==> Settles(records[i], ip) || updateOk(i);
      hide NoneRefused;
    }
  }

  lemma RefusedFrom(records: seq<CfRecord>, next: seq<CfRecord>, ip: string, updateOk: nat -> bool, i: nat, k: nat)
    requires i < k < |records| == |next| && forall j | i < j <= k :: next[j] == records[j]
    ensures NoneRefused(records, ip, updateOk, i, k) <==>
              (Settles(records[i], ip) || updateOk(i)) && NoneRefused(next, ip, updateOk, i + 1, k)
  {
    hide Settles;
  }

  /** The key under which the settings remember the address of a name. */
  function Key(domain: string, kind: Kind): string {
    match kind case A => "ddns_ipv4_" + domain case AAAA => "ddns_ipv6_" + domain
  }

  /** One upsert in full, for a name without records: it gets one unless the
      settings know an address of it, and ends badly if that is refused. */
  lemma CreateExactly(m: Manager, domain: string, ip: string, kind: Kind, a: CfAnswer, newId: string)
    requires a.Found? && a.records == []
    ensures var (next, ok) := OneUpdate(m, domain, ip, kind, a);
            var missing := Key(domain, kind) !in m.settings || m.settings[Key(domain, kind)] == "";
            && (ok <==> missing ==> a.createOk)
            && next.settings == (if ok then m.settings[Key(domain, kind) := ip] else m.settings)
            && Records(m, domain, ip, kind, a, newId) ==
                 (if missing && a.createOk then [CfRecord(newId, ip)] else [])
            && Creates(next, domain, kind) == Creates(m, domain, kind) + (if missing && a.createOk then 1 else 0)
            && forall d, k | (d, k) != (domain, kind) :: Creates(next, d, k) == Creates(m, d, k)
  {
  }

  /** And for a name with records: each that needs it gets the address, up to the
      first that is refused; it ends well if none is, and nothing is created. */
  lemma ChangeExactly(m: Manager, domain: string, ip: string, kind: Kind, a: CfAnswer, newId: string)
    requires a.Found? && a.records != []
    ensures var (next, ok) := OneUpdate(m, domain, ip, kind, a);
            var after := Records(m, domain, ip, kind, a, newId);
            && (ok <==> NoneRefused(a.records, ip, a.updateOk, 0, |a.records| - 1))
            && next == m.(settings := if ok then m.settings[Key(domain, kind) := ip] else m.settings)
            && |after| == |a.records|
            && forall k | 0 <= k < |after| ::
                 after[k] == if !Settles(a.records[k], ip) && NoneRefused(a.records, ip, a.updateOk, 0, k)
                             then CfRecord(a.records[k].id, ip) else a.records[k]
  {
    MovedMeans(a.records, ip, a.updateOk, 0);
    assert forall r: CfRecord :: Due(r, ip) <==> !Settles(r, ip);
    hide Settles, Due, Moved;
  }

  /** A name in no zone is refused; a lookup that fails passes for success. */
  lemma UnansweredExactly(m: Manager, domain: string, ip: string, kind: Kind)
    ensures OneUpdate(m, domain, ip, kind, NoZone) == (m, false)
    ensures OneUpdate(m, domain, ip, kind, LookupFailed) ==
              (m.(settings := m.settings[Key(domain, kind) := ip]), true)
  {
  }

  /** An upsert, and on Ok the cached address written after it. */
  function OneUpdate(m: Manager, domain: string, ip: string, kind: Kind, a: CfAnswer): (Manager, bool) {
    var (ok, created) := CfUpsert(m, domain, ip, kind, a);
    (Manager(if ok then m.settings[CacheKey(domain, kind) := ip] else m.settings,
             if created then m.creates[(domain, kind) := Creates(m, domain, kind) + 1] else m.creates), ok)
  }

  /** The addresses a pass works with: an empty IPv4 is skipped, and so is an
      IPv6 that is missing, empty or without a colon. */
  function Addresses(ipv4: string, ipv6: Option<string>): seq<(Kind, string)> {
    (if ipv4 != "" then [(A, ipv4)] else []) +
    (if ipv6.Some? && ipv6.value != "" && ':' in ipv6.value then [(AAAA, ipv6.value)] else [])
  }

  datatype Job = Job(domain: string, kind: Kind, ip: string)

  function JobsOf(domain: string, addresses: seq<(Kind, string)>): seq<Job> {
    if addresses == [] then [] else [Job(domain, addresses[0].0, addresses[0].1)] + JobsOf(domain, addresses[1..])
  }

  function Jobs(domains: seq<string>, addresses: seq<(Kind, string)>): seq<Job> {
    if domains == [] then [] else JobsOf(domains[0], addresses) + Jobs(domains[1..], addresses)
  }

  /** The jobs from the n-th on; the first one that fails ends the pass. */
  function Work(m: Manager, jobs: seq<Job>, answers: nat -> CfAnswer, n: nat): Manager
    requires n <= |jobs|
    decreases |jobs| - n
  {
    if n == |jobs| then m
    else
      var (next, ok) := OneUpdate(m, jobs[n].domain, jobs[n].ip, jobs[n].kind, answers(n));
      if ok then Work(next, jobs, answers, n + 1) else next
  }

  /** What a pass sets out to do: one job a domain, and an address each, in the order
      of the domains and with the IPv4 first. */
  lemma {:induction false} JobsExactly(domains: seq<string>, ipv4: string, ipv6: Option<string>)
    ensures var jobs := Jobs(domains, Addresses(ipv4, ipv6));
            var six := ipv6.Some? && ipv6.value != "" && ':' in ipv6.value;
            if ipv4 != "" && six then
              |jobs| == 2 * |domains| && forall i | 0 <= i < |domains| ::
                jobs[2 * i] == Job(domains[i], A, ipv4) && jobs[2 * i + 1] == Job(domains[i], AAAA, ipv6.value)
            else if ipv4 != "" then
              |jobs| == |domains| && forall i | 0 <= i < |domains| :: jobs[i] == Job(domains[i], A, ipv4)
            else if six then
              |jobs| == |domains| && forall i | 0 <= i < |domains| :: jobs[i] == Job(domains[i], AAAA, ipv6.value)
            else jobs == []
    ensures forall j <- Jobs(domains, Addresses(ipv4, ipv6)) ::
              if j.kind == A then j.ip == ipv4 else ipv6 == Some(j.ip)
  {
    var four, six := (A, ipv4), if ipv6.Some? then (AAAA, ipv6.value) else (AAAA, "");
    JobsOfNone(domains);
    JobsOfOne(domains, four);
    JobsOfOne(domains, six);
    JobsOfTwo(domains, four, six);
    hide Jobs;
    var addresses := Addresses(ipv4, ipv6);
    assert addresses == [] || addresses == [four] || addresses == [six] || addresses == [four, six];
  }

  lemma {:induction false} JobsOfNone(domains: seq<string>)
    ensures Jobs(domains, []) == []
  {
    if domains != [] { JobsOfNone(domains[1..]); }
  }

  lemma {:induction false} JobsOfOne(domains: seq<string>, a: (Kind, string))
    ensures |Jobs(domains, [a])| == |domains|
    ensures forall i | 0 <= i < |domains| :: Jobs(domains, [a])[i] == Job(domains[i], a.0, a.1)
    ensures forall j <- Jobs(domains, [a]) :: (j.kind, j.ip) == a
  {
    if domains != [] {
      var rest := Jobs(domains[1..], [a]);
      JobsOfOne(domains[1..], a);
      assert JobsOf(domains[0], []) == [] && [a][1..] == [];
      assert Jobs(domains, [a]) == [Job(domains[0], a.0, a.1)] + rest;
    }
  }

  lemma {:induction false} JobsOfTwo(domains: seq<string>, a: (Kind, string), b: (Kind, string))
    ensures |Jobs(domains, [a, b])| == 2 * |domains|
    ensures forall i | 0 <= i < |domains| ::
              Jobs(domains, [a, b])[2 * i] == Job(domains[i], a.0, a.1) &&
              Jobs(domains, [a, b])[2 * i + 1] == Job(domains[i], b.0, b.1)
    ensures forall j <- Jobs(domains, [a, b]) :: (j.kind, j.ip) == a || (j.kind, j.ip) == b
  {
    if domains != [] {
      var rest := Jobs(domains[1..], [a, b]);
      JobsOfTwo(domains[1..], a, b);
      var here := [Job(domains[0], a.0, a.1), Job(domains[0], b.0, b.1)];
      TwoJobs(domains[0], a, b);
      assert Jobs(domains, [a, b]) == here + rest;
      hide Jobs, JobsOf;
      forall i | 0 < i < |domains|
        ensures (here + rest)[2 * i] == Job(domains[i], a.0, a.1) &&
                (here + rest)[2 * i + 1] == Job(domains[i], b.0, b.1)
      {
        assert rest[2 * (i - 1)] == Job(domains[1..][i - 1], a.0, a.1);
        assert 2 * i - 2 == 2 * (i - 1);
      }
    }
  }

  lemma TwoJobs(domain: string, a: (Kind, string), b: (Kind, string))
    ensures JobsOf(domain, [a, b]) == [Job(domain, a.0, a.1), Job(domain, b.0, b.1)]
  {
    assert [a, b][1..] == [b] && [b][1..] == [];
    assert JobsOf(domain, [b]) == [Job(domain, b.0, b.1)];
  }

  datatype Pass = Pass(domains: seq<string>, ipv4: string, ipv6: Option<string>, answers: nat -> CfAnswer)

  function PassResult(m: Manager, p: Pass): Manager {
    Work(m, Jobs(p.domains, Addresses(p.ipv4, p.ipv6)), p.answers, 0)
  }

  function Passes(m: Manager, ps: seq<Pass>): Manager {
    if ps == [] then m else PassResult(Passes(m, ps[..|ps| - 1]), ps[|ps| - 1])
  }

  class DdnsManager {
    var settings: map<string, string>
    ghost var creates: map<(string, Kind), nat>

    ghost function State(): Manager
      reads this
    {
      Manager(settings, creates)
    }

    constructor (initial: map<string, string>)
      ensures State() == Manager(initial, map[])
    {
      settings, creates := initial, map[];
    }

    /** One record: create it when there is none and it was never managed, update
        those that differ, and store the address when all went through. */
    method UpdateOne(domain: string, ip: string, kind: Kind, a: CfAnswer, newId: string)
      returns (ok: bool, records: seq<CfRecord>)
      modifies this
      ensures (State(), ok) == OneUpdate(old(State()), domain, ip, kind, a)
      ensures a.Found? ==> records == Records(old(State()), domain, ip, kind, a, newId)
    {
      ok, records := true, [];
      match a {
        case NoZone => ok := false;
        case LookupFailed =>
        case Found(found, createOk, updateOk) =>
          records := found;
          if records == [] {
            var key := CacheKey(domain, kind);
            if !(key in settings && settings[key] != "") {
              if createOk {
                records := [CfRecord(newId, ip)];
                creates := creates[(domain, kind) := Creates(State(), domain, kind) + 1];
              } else {
                ok := false;
              }
            }
          } else {
            var i := 0;
            while i < |found| && ok
              invariant 0 <= i <= |found| == |records|
              invariant forall k | i <= k < |found| :: records[k] == found[k]
              invariant ok ==> Moved(records, ip, updateOk, i) == Moved(found, ip, updateOk, 0)
              invariant ok ==> forall k | 0 <= k < i :: Due(found[k], ip) ==> updateOk(k)
              invariant !ok ==> !UpdatesGoThrough(a, ip) && records == Moved(found, ip, updateOk, 0)
              decreases |found| - i, ok
            {
              if found[i].id == "" || found[i].content == "" || found[i].content == ip {
                i := i + 1;
              } else if updateOk(i) {
                records := records[i := records[i].(content := ip)];
                i := i + 1;
              } else {
                ok := false;
              }
            }
          }
      }
      if ok {
        settings := settings[CacheKey(domain, kind) := ip];
      }
    }

    method UpdateAll(p: Pass)
      modifies this
      ensures State() == PassResult(old(State()), p)
    {
      var jobs := Jobs(p.domains, Addresses(p.ipv4, p.ipv6));
      var n := 0;
      while n < |jobs|
        invariant 0 <= n <= |jobs|
        invariant Work(State(), jobs, p.answers, n) == Work(old(State()), jobs, p.answers, 0)
      {
        var ok, records := UpdateOne(jobs[n].domain, jobs[n].ip, jobs[n].kind, p.answers(n), "");
        if !ok { return; }
        n := n + 1;
      }
    }
  }

  /** At most one create, and none once the record is managed. */
  ghost predicate CreateOnce(m: Manager) {
    forall d, k :: Creates(m, d, k) <= if Managed(m, d, k) then 1 else 0
  }

  lemma OneUpdateKeeps(m: Manager, job: Job, a: CfAnswer)
    requires job.ip != ""
    ensures var next := OneUpdate(m, job.domain, job.ip, job.kind, a).0;
            && (CreateOnce(m) ==> CreateOnce(next))
            && (forall d, k :: Managed(m, d, k) ==> Managed(next, d, k) && Creates(next, d, k) == Creates(m, d, k))
  {
    var next := OneUpdate(m, job.domain, job.ip, job.kind, a).0;
    forall d, k
      ensures Managed(next, d, k) <==>
                || Managed(m, d, k)
                || (OneUpdate(m, job.domain, job.ip, job.kind, a).1 && d == job.domain && k == job.kind)
    {
      CacheKeyInjective(d, k, job.domain, job.kind);
    }
  }

  lemma {:induction false} JobsCarryAddresses(domains: seq<string>, addresses: seq<(Kind, string)>)
    requires forall a <- addresses :: a.1 != ""
    ensures forall j <- Jobs(domains, addresses) :: j.ip != ""
  {
    if domains != [] {
      JobsOfCarry(domains[0], addresses);
      JobsCarryAddresses(domains[1..], addresses);
    }
  }

  lemma {:induction false} JobsOfCarry(domain: string, addresses: seq<(Kind, string)>)
    requires forall a <- addresses :: a.1 != ""
    ensures forall j <- JobsOf(domain, addresses) :: j.ip != ""
  {
    if addresses != [] {
      assert addresses[0] in addresses;
      JobsOfCarry(domain, addresses[1..]);
    }
  }

  lemma {:induction false} WorkKeeps(m: Manager, jobs: seq<Job>, answers: nat -> CfAnswer, n: nat)
    requires n <= |jobs| && forall j <- jobs :: j.ip != ""
    ensures var end := Work(m, jobs, answers, n);
            && (CreateOnce(m) ==> CreateOnce(end))
            && (forall d, k :: Managed(m, d, k) ==> Managed(end, d, k) && Creates(end, d, k) == Creates(m, d, k))
    decreases |jobs| - n
  {
    hide CreateOnce, OneUpdate, Managed, Creates;
    if n < |jobs| {
      assert jobs[n] in jobs;
      OneUpdateKeeps(m, jobs[n], answers(n));
      var (next, ok) := OneUpdate(m, jobs[n].domain, jobs[n].ip, jobs[n].kind, answers(n));
      if ok { WorkKeeps(next, jobs, answers, n + 1); }
    }
  }

  lemma PassKeeps(m: Manager, p: Pass)
    ensures var end := PassResult(m, p);
            && (CreateOnce(m) ==> CreateOnce(end))
            && (forall d, k :: Managed(m, d, k) ==> Managed(end, d, k) && Creates(end, d, k) == Creates(m, d, k))
  {
    hide CreateOnce, Managed, Creates, Work;
    var addresses := Addresses(p.ipv4, p.ipv6);
    JobsCarryAddresses(p.domains, addresses);
    WorkKeeps(m, Jobs(p.domains, addresses), p.answers, 0);
  }

  /** Over any run of passes, whatever Cloudflare answers and whatever happens to
      the records in between, each domain and type is created at most once, and
      never again once it is managed. */
  lemma {:induction false} CreatedAtMostOnce(m: Manager, ps: seq<Pass>, d: string, k: Kind)
    requires CreateOnce(m)
    ensures CreateOnce(Passes(m, ps)) && Creates(Passes(m, ps), d, k) <= 1
    ensures Managed(m, d, k) ==> Managed(Passes(m, ps), d, k) && Creates(Passes(m, ps), d, k) == Creates(m, d, k)
  {
    hide Managed, Creates, PassResult;
    if ps != [] {
      CreatedAtMostOnce(m, ps[..|ps| - 1], d, k);
      PassKeeps(Passes(m, ps[..|ps| - 1]), ps[|ps| - 1]);
    }
    assert Creates(Passes(m, ps), d, k) <= if Managed(Passes(m, ps), d, k) then 1 else 0;
  }

  // ------------------------------------------------ when a record is created

  /** A job that was carried out, with Cloudflare's answer. */
  datatype Tried = Tried(job: Job, answer: CfAnswer)

  /** The jobs a pass carries out from the n-th on. */
  function Ran(m: Manager, jobs: seq<Job>, answers: nat -> CfAnswer, n: nat): seq<Tried>
    requires n <= |jobs|
    decreases |jobs| - n
  {
    if n == |jobs| then []
    else
      var (next, ok) := OneUpdate(m, jobs[n].domain, jobs[n].ip, jobs[n].kind, answers(n));
      [Tried(jobs[n], answers(n))] + if ok then Ran(next, jobs, answers, n + 1) else []
  }

  /** The jobs a run of passes carries out, in order. */
  function History(m: Manager, ps: seq<Pass>): seq<Tried> {
    if ps == [] then []
    else
      var p := ps[|ps| - 1];
      History(m, ps[..|ps| - 1]) + Ran(Passes(m, ps[..|ps| - 1]), Jobs(p.domains, Addresses(p.ipv4, p.ipv6)),
          p.answers, 0)
  }

  function Applied(m: Manager, h: seq<Tried>): Manager
    decreases |h|
  {
    if h == [] then m
    else Applied(OneUpdate(m, h[0].job.domain, h[0].job.ip, h[0].job.kind, h[0].answer).0, h[1..])
  }

  /** Cloudflare refuses nothing. */
  ghost predicate Willing(a: CfAnswer) {
    a.LookupFailed? || (a.Found? && a.createOk && forall i :: a.updateOk(i))
  }

  /** When nothing is refused, every job is carried out. */
  lemma {:induction false} RanAll(m: Manager, jobs: seq<Job>, answers: nat -> CfAnswer, n: nat)
    requires n <= |jobs| && forall i: nat :: Willing(answers(i))
    ensures |Ran(m, jobs, answers, n)| == |jobs| - n
    ensures forall i | n <= i < |jobs| :: Ran(m, jobs, answers, n)[i - n] == Tried(jobs[i], answers(i))
    decreases |jobs| - n
  {
    if n < |jobs| {
      assert Willing(answers(n));
      WillingStores(m, jobs[n], answers(n), jobs[n]);
      hide OneUpdate, Willing;
      RanAll(OneUpdate(m, jobs[n].domain, jobs[n].ip, jobs[n].kind, answers(n)).0, jobs, answers, n + 1);
    }
  }

  /** Jobs for one type of record carry one address. */
  ghost predicate OneAddress(jobs: seq<Job>) {
    forall i, k | 0 <= i < |jobs| && 0 <= k < |jobs| && jobs[i].kind == jobs[k].kind :: jobs[i].ip == jobs[k].ip
  }

  ghost predicate AllStored(settings: map<string, string>, jobs: seq<Job>, n: nat)
    requires n <= |jobs|
  {
    forall i | 0 <= i < n :: Stored(settings, jobs[i])
  }

  /** And its address is stored. */
  lemma {:induction false} WorkStoresAll(m: Manager, jobs: seq<Job>, answers: nat -> CfAnswer, n: nat)
    requires n <= |jobs| && OneAddress(jobs) && AllStored(m.settings, jobs, n)
    requires forall i: nat :: Willing(answers(i))
    ensures AllStored(Work(m, jobs, answers, n).settings, jobs, |jobs|)
    decreases |jobs| - n
  {
    if n < |jobs| {
      var (next, ok) := OneUpdate(m, jobs[n].domain, jobs[n].ip, jobs[n].kind, answers(n));
      hide OneUpdate, Willing, Stored, Work;
      forall i | 0 <= i <= n ensures ok && Stored(next.settings, jobs[i]) {
        assert Willing(answers(n));
        WillingStores(m, jobs[n], answers(n), jobs[i]);
      }
      assert ok by { WillingStores(m, jobs[n], answers(n), jobs[n]); }
      WorkStoresAll(next, jobs, answers, n + 1);
      WorkGoesOn(m, jobs, answers, n);
    }
  }

  lemma WorkGoesOn(m: Manager, jobs: seq<Job>, answers: nat -> CfAnswer, n: nat)
    requires n < |jobs|
    requires OneUpdate(m, jobs[n].domain, jobs[n].ip, jobs[n].kind, answers(n)).1
    ensures Work(m, jobs, answers, n) ==
              Work(OneUpdate(m, jobs[n].domain, jobs[n].ip, jobs[n].kind, answers(n)).0, jobs, answers, n + 1)
  {
    hide OneUpdate;
  }

  lemma WillingStores(m: Manager, job: Job, a: CfAnswer, other: Job)
    requires Willing(a) && (other.kind == job.kind ==> other.ip == job.ip)
    ensures var (next, ok) := OneUpdate(m, job.domain, job.ip, job.kind, a);
            ok && Stored(next.settings, job) && (Stored(m.settings, other) ==> Stored(next.settings, other))
  {
    CacheKeyInjective(other.domain, other.kind, job.domain, job.kind);
  }

  predicate Stored(settings: map<string, string>, j: Job) {
    CacheKey(j.domain, j.kind) in settings && settings[CacheKey(j.domain, j.kind)] == j.ip
  }

  /** A pass in which nothing is refused reaches every domain: each is afterwards
      known under the IPv4 address, if there is one, and under the IPv6 address, if
      there is one with a colon. */
  lemma PassReachesAll(m: Manager, p: Pass)
    requires forall i: nat :: Willing(p.answers(i))
    ensures var jobs := Jobs(p.domains, Addresses(p.ipv4, p.ipv6));
            var ran := Ran(m, jobs, p.answers, 0);
            |ran| == |jobs| && forall i | 0 <= i < |jobs| :: ran[i].job == jobs[i]
    ensures var end := PassResult(m, p).settings;
            forall d <- p.domains ::
              && (p.ipv4 != "" ==> "ddns_ipv4_" + d in end && end["ddns_ipv4_" + d] == p.ipv4)
              && (p.ipv6.Some? && p.ipv6.value != "" && ':' in p.ipv6.value ==>
                    "ddns_ipv6_" + d in end && end["ddns_ipv6_" + d] == p.ipv6.value)
  {
    hide Willing, Work;
    var jobs := Jobs(p.domains, Addresses(p.ipv4, p.ipv6));
    JobsExactly(p.domains, p.ipv4, p.ipv6);
    hide Jobs, Addresses;
    assert OneAddress(jobs) by {
      assert forall i | 0 <= i < |jobs| :: jobs[i] in jobs;
    }
    WorkStoresAll(m, jobs, p.answers, 0);
    RanAll(m, jobs, p.answers, 0);
    var six := p.ipv6.Some? && p.ipv6.value != "" && ':' in p.ipv6.value;
    var end := PassResult(m, p).settings;
    forall d <- p.domains
      ensures p.ipv4 != "" ==> Stored(end, Job(d, A, p.ipv4))
      ensures six ==> Stored(end, Job(d, AAAA, p.ipv6.value))
    {
      var i :| 0 <= i < |p.domains| && p.domains[i] == d;
      if p.ipv4 != "" { assert Stored(end, jobs[if six then 2 * i else i]); }
      if six { assert Stored(end, jobs[if p.ipv4 != "" then 2 * i + 1 else i]); }
    }
  }

  /** A name without a zone ends the pass: no job behind it is carried out. */
  lemma {:induction false} NoZoneEndsPass(m: Manager, jobs: seq<Job>, answers: nat -> CfAnswer, n: nat, k: nat)
    requires n <= k < |jobs| && answers(k) == NoZone
    ensures |Ran(m, jobs, answers, n)| <= k - n + 1
    decreases |jobs| - n
  {
    if n < k {
      hide OneUpdate;
      NoZoneEndsPass(OneUpdate(m, jobs[n].domain, jobs[n].ip, jobs[n].kind, answers(n)).0, jobs, answers, n + 1, k);
    }
  }

  lemma {:induction false} RanApplied(m: Manager, jobs: seq<Job>, answers: nat -> CfAnswer, n: nat)
    requires n <= |jobs|
    ensures Applied(m, Ran(m, jobs, answers, n)) == Work(m, jobs, answers, n)
    ensures forall t <- Ran(m, jobs, answers, n) :: t.job in jobs
    decreases |jobs| - n
  {
    hide OneUpdate;
    if n < |jobs| {
      var (next, ok) := OneUpdate(m, jobs[n].domain, jobs[n].ip, jobs[n].kind, answers(n));
      var rest := if ok then Ran(next, jobs, answers, n + 1) else [];
      assert ([Tried(jobs[n], answers(n))] + rest)[1..] == rest;
      if ok { RanApplied(next, jobs, answers, n + 1); }
    }
  }

  lemma {:induction false} AppliedAppend(m: Manager, g: seq<Tried>, h: seq<Tried>)
    ensures Applied(m, g + h) == Applied(Applied(m, g), h)
    decreases |g|
  {
    hide OneUpdate;
    if g == [] {
      assert g + h == h;
    } else {
      assert (g + h)[1..] == g[1..] + h;
      AppliedAppend(OneUpdate(m, g[0].job.domain, g[0].job.ip, g[0].job.kind, g[0].answer).0, g[1..], h);
    }
  }

  lemma {:induction false} HistoryApplied(m: Manager, ps: seq<Pass>)
    ensures Applied(m, History(m, ps)) == Passes(m, ps)
    ensures forall t <- History(m, ps) :: t.job.ip != ""
  {
    hide OneUpdate, Applied, Ran;
    if ps == [] {
      AppliedNothing(m);
    } else {
      var init, p := ps[..|ps| - 1], ps[|ps| - 1];
      var jobs := Jobs(p.domains, Addresses(p.ipv4, p.ipv6));
      HistoryApplied(m, init);
      RanApplied(Passes(m, init), jobs, p.answers, 0);
      AppliedAppend(m, History(m, init), Ran(Passes(m, init), jobs, p.answers, 0));
      JobsCarryAddresses(p.domains, Addresses(p.ipv4, p.ipv6));
    }
  }

  lemma AppliedNothing(m: Manager)
    ensures Applied(m, []) == m
  {
  }

  predicate On(t: Tried, d: string, k: Kind) {
    t.job.domain == d && t.job.kind == k
  }

  /** For a name not managed yet: the upsert creates a record. */
  predicate Creating(t: Tried) {
    t.answer.Found? && t.answer.records == [] && t.answer.createOk
  }

  /** For a name not managed yet: the upsert ends Ok, after which it is managed. */
  predicate Settling(t: Tried) {
    || t.answer.LookupFailed?
    || (t.answer.Found? && if t.answer.records == [] then t.answer.createOk else UpdatesGoThrough(t.answer, t.job.ip))
  }

  /** The first job of the name that settles it is the i-th. */
  predicate FirstSettled(h: seq<Tried>, d: string, k: Kind, i: nat) {
    i < |h| && On(h[i], d, k) && Settling(h[i]) && forall j | 0 <= j < i :: On(h[j], d, k) ==> !Settling(h[j])
  }

  /** Some job carried out for the name ended Ok. */
  ghost predicate Settled(h: seq<Tried>, d: string, k: Kind) {
    exists i: nat :: FirstSettled(h, d, k, i)
  }

  /** The first job carried out for the name that ended Ok created its record. */
  ghost predicate Created(h: seq<Tried>, d: string, k: Kind) {
    exists i: nat :: FirstSettled(h, d, k, i) && Creating(h[i])
  }

  lemma TriedOnce(m: Manager, t: Tried, d: string, k: Kind)
    requires CreateOnce(m) && t.job.ip != ""
    ensures var next := OneUpdate(m, t.job.domain, t.job.ip, t.job.kind, t.answer).0;
            && CreateOnce(next)
            && (Managed(m, d, k) ==> Managed(next, d, k) && Creates(next, d, k) == Creates(m, d, k))
            && (!Managed(m, d, k) && On(t, d, k) ==>
                  && (Managed(next, d, k) <==> Settling(t))
                  && Creates(next, d, k) == if Creating(t) then 1 else 0)
            && (!Managed(m, d, k) && !On(t, d, k) ==> !Managed(next, d, k) && Creates(next, d, k) == 0)
  {
    hide UpdatesGoThrough;
    OneUpdateKeeps(m, t.job, t.answer);
    assert !Managed(m, d, k) ==> Creates(m, d, k) == 0;
    CacheKeyInjective(d, k, t.job.domain, t.job.kind);
  }

  lemma {:induction false} AppliedExactly(m: Manager, h: seq<Tried>, d: string, k: Kind)
    requires CreateOnce(m) && forall t <- h :: t.job.ip != ""
    ensures var end := Applied(m, h);
            && (Managed(m, d, k) ==> Managed(end, d, k) && Creates(end, d, k) == Creates(m, d, k))
            && (!Managed(m, d, k) ==>
                  && (Managed(end, d, k) <==> Settled(h, d, k))
                  && (Creates(end, d, k) == 1 <==> Created(h, d, k))
                  && Creates(end, d, k) <= 1)
    decreases |h|
  {
    hide Managed, Creates, CreateOnce, Settling, Creating, OneUpdate, On, Settled, Created;
    if h == [] {
      NothingTried(m, h, d, k);
    } else {
      assert h == [h[0]] + h[1..] && h[0] in h;
      TriedOnce(m, h[0], d, k);
      var next := OneUpdate(m, h[0].job.domain, h[0].job.ip, h[0].job.kind, h[0].answer).0;
      AppliedExactly(next, h[1..], d, k);
      if !Managed(m, d, k) {
        CreatingSettles(h[0]);
        FirstOfRest(h, d, k);
      }
    }
  }

  lemma NothingTried(m: Manager, h: seq<Tried>, d: string, k: Kind)
    requires CreateOnce(m) && h == []
    ensures !Managed(m, d, k) ==> Creates(m, d, k) == 0
    ensures !Settled(h, d, k) && !Created(h, d, k)
  {
  }

  lemma CreatingSettles(t: Tried)
    ensures Creating(t) ==> Settling(t)
  {
  }

  lemma FirstOfRest(h: seq<Tried>, d: string, k: Kind)
    requires h != []
    ensures On(h[0], d, k) && Settling(h[0]) ==> Settled(h, d, k) && (Created(h, d, k) <==> Creating(h[0]))
    ensures !(On(h[0], d, k) && Settling(h[0])) ==>
              (Settled(h, d, k) <==> Settled(h[1..], d, k)) && (Created(h, d, k) <==> Created(h[1..], d, k))
  {
    hide On, Settling, Creating;
    if On(h[0], d, k) && Settling(h[0]) {
      assert FirstSettled(h, d, k, 0) && forall i: nat :: FirstSettled(h, d, k, i) ==> i == 0;
    } else {
      assert !FirstSettled(h, d, k, 0);
      forall i: nat ensures FirstSettled(h[1..], d, k, i) <==> FirstSettled(h, d, k, i + 1) {
        assert i < |h| - 1 ==> h[1..][i] == h[i + 1];
      }
      hide FirstSettled;
      assert forall i: nat :: FirstSettled(h, d, k, i) ==> i > 0 && FirstSettled(h[1..], d, k, i - 1);
      FirstIndexes(h, d, k);
      assert forall i: nat | FirstSettled(h[1..], d, k, i) :: h[1..][i] == h[i + 1];
    }
  }

  lemma FirstIndexes(h: seq<Tried>, d: string, k: Kind)
    requires h != []
    ensures forall i: nat :: FirstSettled(h, d, k, i) ==> i < |h|
    ensures forall i: nat :: FirstSettled(h[1..], d, k, i) ==> i < |h| - 1
  {
  }

  /** Over any run of passes, for a name that is not managed yet: Cloudflare has
      created its record by the end if and only if, of the jobs carried out for it,
      the first that ended Ok was a lookup that found nothing followed by a
      confirmed create. It is managed by then if and only if one ended Ok; a lookup
      that failed ends Ok as well. */
  lemma CreatedExactly(m: Manager, ps: seq<Pass>, d: string, k: Kind)
    requires CreateOnce(m) && !Managed(m, d, k)
    ensures var h, end := History(m, ps), Passes(m, ps);
            && (Creates(end, d, k) == 1 <==> Created(h, d, k))
            && (Managed(end, d, k) <==> Settled(h, d, k))
            && Creates(end, d, k) <= 1
  {
    hide Managed, Creates, CreateOnce, History, Passes, Applied, Settled, Created;
    HistoryApplied(m, ps);
    AppliedExactly(m, History(m, ps), d, k);
  }

  lemma {:induction false} FirstUpTo(h: seq<Tried>, d: string, k: Kind, i: nat, n: nat) returns (first: nat)
    requires i <= n < |h| && On(h[n], d, k) && Settling(h[n])
    requires forall j | 0 <= j < i :: On(h[j], d, k) ==> !Settling(h[j])
    ensures first <= n && FirstSettled(h, d, k, first)
    decreases n - i
  {
    hide On, Settling;
    if On(h[i], d, k) && Settling(h[i]) {
      first := i;
    } else {
      first := FirstUpTo(h, d, k, i + 1, n);
    }
  }

  /** So a name that has no record and is not managed gets one in a run of passes if
      and only if a lookup that finds nothing, followed by a confirmed create, comes
      before any lookup of it that fails: after that, no later pass creates it. */
  lemma FailedLookupBlocksCreation(m: Manager, ps: seq<Pass>, d: string, k: Kind)
    requires CreateOnce(m) && !Managed(m, d, k)
    requires forall t <- History(m, ps) :: On(t, d, k) && t.answer.Found? ==> t.answer.records == []
    ensures var h := History(m, ps);
            Creates(Passes(m, ps), d, k) == 1 <==>
              exists i | 0 <= i < |h| ::
                On(h[i], d, k) && Creating(h[i]) && forall j | 0 <= j < i :: On(h[j], d, k) ==>
                    !h[j].answer.LookupFailed?
  {
    hide Managed, Creates, CreateOnce, History, Passes, UpdatesGoThrough;
    var h := History(m, ps);
    CreatedExactly(m, ps, d, k);
    if n :| 0 <= n < |h| && On(h[n], d, k) && Creating(h[n])
            && forall j | 0 <= j < n :: On(h[j], d, k) ==> !h[j].answer.LookupFailed? {
      var first := FirstUpTo(h, d, k, 0, n);
      assert h[first] in h && Creating(h[first]);
    }
    if i: nat :| FirstSettled(h, d, k, i) && Creating(h[i]) {
      assert On(h[i], d, k) && forall j | 0 <= j < i :: On(h[j], d, k) ==> !h[j].answer.LookupFailed?;
    }
  }
}
