/**
  Issuing a certificate by ACME DNS-01: create a TXT record, wait for the
  authority to validate it, delete the record, wait for the order, finalise,
  store. Two versions exist in the code, the worker's and the renewal loop's;
  they differ in their poll limit and in a few exits.

  The certificate authority and the DNS provider are an arbitrary script of
  answers. A run leaves a trace of events, and every property is about traces.
*/
module Acme {
  import opened Common
  import ZoneSearch

  // --------------------------------------------------------- the other side

  /** None stands for a request that failed. */
  type Answer<T> = Option<T>

  datatype AuthStatus = Valid | Invalid | Unsettled

  datatype OrderStatus = Ready | OrderInvalid | NotReady

  datatype AuthInfo = AuthInfo(identifier: string, hasDns01: bool)

  /** How the authority and the provider answer about one authorization; polls(i)
      is the answer to the i-th status request, and removed tells whether the delete
      of the record takes effect, which the code never looks at. */
  datatype Authorization = Authorization(listed: bool, info: Answer<AuthInfo>, created: Answer<string>,
                                         ready: bool, polls: nat -> Answer<AuthStatus>, removed: bool)

  datatype Script = Script(ordered: bool, auths: seq<Authorization>, orderPolls: seq<Answer<OrderStatus>>,
                           csr: bool, finalized: bool, issued: Answer<string>, encrypted: Answer<string>)

  datatype Variant = Worker | Renewal {
    /** Status requests made before giving up. */
    function Limit(): (n: nat)
      ensures n > 0
    {
      match this case Worker => 120 case Renewal => 30
    }
  }

  // ------------------------------------------------------------------ traces

  datatype Event =
    | CreateTxt(auth: nat, domain: string, record: string)
    | DeleteTxt(auth: nat, domain: string, record: string, removed: bool)
    | SawValid(auth: nat)
    | SawReady
    | Finalized                 // the CSR was submitted
    | Stored(primary: string)

  datatype Outcome = Issued | Refused | StillWaiting | Panicked

  /** The TXT record of a wildcard goes on the bare domain. */
  function BareDomain(identifier: string): string {
    if "*." <= identifier then identifier[2..] else identifier
  }

  datatype PollEnd = PolledValid | PolledInvalid | TimedOut | PollFailed

  /** Polling from the i-th request on: how it ends, and at which request. */
  function Poll(polls: nat -> Answer<AuthStatus>, i: nat, limit: nat): (r: (PollEnd, nat))
    requires i <= limit
    ensures i <= r.1 <= limit
    decreases limit - i
  {
    if polls(i).None? then (PollFailed, i)
    else match polls(i).value
      case Valid => (PolledValid, i)
      case Invalid => (PolledInvalid, i)
      case Unsettled => if i == limit then (TimedOut, i) else Poll(polls, i + 1, limit)
  }

  /** The record exists at the provider once this has happened. */
  predicate Challenged(a: Authorization) {
    a.listed && a.info.Some? && a.info.value.hasDns01 && a.created.Some?
  }

  function End(v: Variant, a: Authorization): PollEnd {
    Poll(a.polls, 1, v.Limit()).0
  }

  predicate Notified(v: Variant, a: Authorization) {
    v == Renewal || a.ready
  }

  predicate Passes(v: Variant, a: Authorization) {
    Challenged(a) && Notified(v, a) && End(v, a) == PolledValid
  }

  /** The exits that leave the record behind: a request error after creation. */
  predicate Leaks(v: Variant, a: Authorization) {
    Challenged(a) && (!Notified(v, a) || End(v, a) == PollFailed)
  }

  /** The domain that the delete is sent for: the renewal loop forgets to strip
      the wildcard when the validation has failed. */
  function DeletedAt(v: Variant, a: Authorization): string
    requires a.info.Some?
  {
    if v == Worker || Passes(v, a) then BareDomain(a.info.value.identifier) else a.info.value.identifier
  }

  function AuthEvents(v: Variant, a: Authorization, k: nat): seq<Event> {
    if !Challenged(a) then []
    else
      var id, rid := a.info.value.identifier, a.created.value;
      [CreateTxt(k, BareDomain(id), rid)] +
      if Leaks(v, a) then []
      else (if Passes(v, a) then [SawValid(k)] else []) + [DeleteTxt(k, DeletedAt(v, a), rid, a.removed)]
  }

  /** The authorizations from the k-th on, up to and with the first that fails. */
  function AuthsEvents(v: Variant, auths: seq<Authorization>, k: nat): seq<Event>
    requires k <= |auths|
    decreases |auths| - k
  {
    if k == |auths| then []
    else AuthEvents(v, auths[k], k) + if Passes(v, auths[k]) then AuthsEvents(v, auths, k + 1) else []
  }

  predicate AllPass(v: Variant, auths: seq<Authorization>, k: nat) {
    forall i | k <= i < |auths| :: Passes(v, auths[i])
  }

  /** Waiting for the order: it ends well, badly, or not within the script. */
  function OrderWait(polls: seq<Answer<OrderStatus>>): Outcome {
    if polls == [] then StillWaiting
    else if polls[0].None? || polls[0].value == OrderInvalid then Refused
    else if polls[0].value == Ready then Issued
    else OrderWait(polls[1..])
  }

  datatype Trace = Trace(events: seq<Event>, outcome: Outcome)

  function Closing(v: Variant, s: Script, domains: seq<string>): Trace {
    if OrderWait(s.orderPolls) != Issued then Trace([], OrderWait(s.orderPolls))
    else if v == Worker && domains == [] then Trace([SawReady], Refused)
    else if !s.csr then Trace([SawReady], Refused)
    else if !s.finalized || s.issued.None? then Trace([SawReady, Finalized], Refused)
    else if domains == [] then Trace([SawReady, Finalized], Panicked)
    else if s.encrypted.None? then Trace([SawReady, Finalized], Refused)
    else Trace([SawReady, Finalized, Stored(domains[0])], Issued)
  }

  function Issue(v: Variant, s: Script, domains: seq<string>): Trace {
    if !s.ordered then Trace([], Refused)
    else
      var events := AuthsEvents(v, s.auths, 0);
      if !AllPass(v, s.auths, 0) then Trace(events, Refused)
      else
        var closing := Closing(v, s, domains);
        Trace(events + closing.events, closing.outcome)
  }

  // ------------------------------------------------------- the code as it is

  datatype StoredCert = StoredCert(id: string, certPem: string, keyPem: string, expiresAt: string, source: string)

  /** INSERT ... ON CONFLICT(domain) DO UPDATE: the id of an existing row stays. */
  function StoreCert(certs: map<string, StoredCert>, domain: string, newId: string, pem: string, key: string,
      expires: string): map<string, StoredCert> {
    certs[domain := StoredCert(if domain in certs then certs[domain].id else newId, pem, key, expires, "acme")]
  }

  class Issuer {
    var log: seq<Event>
    var certs: map<string, StoredCert>

    constructor (initial: map<string, StoredCert>)
      ensures log == [] && certs == initial
    {
      log, certs := [], initial;
    }

    /** One authorization; true when its validation was seen to succeed. */
    method Authorize(v: Variant, a: Authorization, k: nat) returns (ok: bool)
      modifies this`log
      ensures log == old(log) + AuthEvents(v, a, k) && ok == Passes(v, a)
    {
      if !a.listed { return false; }
      if a.info.None? { return false; }
      if !a.info.value.hasDns01 { return false; }
      var identifier := a.info.value.identifier;
      var txtDomain := BareDomain(identifier);
      if a.created.None? { return false; }
      var rid := a.created.value;
      log := log + [CreateTxt(k, txtDomain, rid)];
      if v == Worker && !a.ready { return false; }

      ok := false;
      var i := 1;
      while i <= (if v == Worker then 120 else 40)
        invariant 1 <= i <= v.Limit()
        invariant log == old(log) + [CreateTxt(k, txtDomain, rid)]
        invariant Poll(a.polls, i, v.Limit()) == Poll(a.polls, 1, v.Limit())
        decreases v.Limit() - i
      {
        var st := a.polls(i);
        if st.None? { return false; }
        if st.value == Valid {
          ok := true;
          break;
        } else if st.value == Invalid {
          log := log + [DeleteTxt(k, if v == Worker then txtDomain else identifier, rid, a.removed)];
          return false;
        } else if i == v.Limit() {
          log := log + [DeleteTxt(k, if v == Worker then txtDomain else identifier, rid, a.removed)];
          return false;
        }
        i := i + 1;
      }
      assert ok;
      log := log + [SawValid(k)];
      log := log + [DeleteTxt(k, txtDomain, rid, a.removed)];
    }

    method AuthorizeAll(v: Variant, auths: seq<Authorization>) returns (ok: bool)
      modifies this`log
      ensures log == old(log) + AuthsEvents(v, auths, 0) && ok == AllPass(v, auths, 0)
    {
      hide Passes, AuthEvents;
      var k := 0;
      while k < |auths|
        invariant 0 <= k <= |auths|
        invariant log + AuthsEvents(v, auths, k) == old(log) + AuthsEvents(v, auths, 0)
        invariant forall i | 0 <= i < k :: Passes(v, auths[i])
      {
        ghost var before := log;
        ok := Authorize(v, auths[k], k);
        if !ok {
          assert AuthsEvents(v, auths, k) == AuthEvents(v, auths[k], k);
          return;
        }
        assert before + AuthsEvents(v, auths, k) == log + AuthsEvents(v, auths, k + 1);
        k := k + 1;
      }
      assert log + AuthsEvents(v, auths, k) == log;
      return true;
    }

    method WaitForOrder(polls: seq<Answer<OrderStatus>>) returns (r: Outcome)
      ensures r == OrderWait(polls)
    {
      var n := 0;
      while n < |polls|
        invariant 0 <= n <= |polls|
        invariant OrderWait(polls[n..]) == OrderWait(polls)
      {
        var st := polls[n];
        if st.None? { return Refused; }
        if st.value == Ready { return Issued; }
        if st.value == OrderInvalid { return Refused; }
        assert polls[n..][1..] == polls[n + 1..];
        n := n + 1;
      }
      assert polls[n..] == [];
      return StillWaiting;
    }

    method IssueCertificate(v: Variant, s: Script, domains: seq<string>, newId: string, expires: string)
        returns (r: Outcome)
      modifies this
      ensures log == old(log) + Issue(v, s, domains).events && r == Issue(v, s, domains).outcome
      ensures certs == if r == Issued
                       then StoreCert(old(certs), domains[0], newId, s.issued.value, s.encrypted.value, expires)
                       else old(certs)
      ensures r == Issued ==>
                && domains != [] && domains[0] in certs
                && Some(certs[domains[0]].certPem) == s.issued && Some(certs[domains[0]].keyPem) == s.encrypted
                && certs[domains[0]].expiresAt == expires && certs[domains[0]].source == "acme"
                && certs[domains[0]].id == (if domains[0] in old(certs) then old(certs)[domains[0]].id else newId)
      ensures forall d :: r != Issued || d != domains[0] ==>
                (d in certs <==> d in old(certs)) && (d in certs ==> certs[d] == old(certs)[d])
    {
      hide AuthsEvents, AllPass, OrderWait;
      if !s.ordered { return Refused; }
      var ok := AuthorizeAll(v, s.auths);
      if !ok { return Refused; }
      var waited := WaitForOrder(s.orderPolls);
      if waited != Issued {
        assert log == old(log) + (AuthsEvents(v, s.auths, 0) + []);
        return waited;
      }
      ghost var authorized := log;
      log := log + [SawReady];
      assert log == old(log) + (AuthsEvents(v, s.auths, 0) + [SawReady]);
      if v == Worker && domains == [] { return Refused; }
      if !s.csr { return Refused; }
      log := log + [Finalized];
      assert log == old(log) + (AuthsEvents(v, s.auths, 0) + [SawReady, Finalized]);
      if !s.finalized { return Refused; }
      if s.issued.None? { return Refused; }
      if domains == [] { return Panicked; }
      var primary := domains[0];
      if s.encrypted.None? { return Refused; }
      certs := StoreCert(certs, primary, newId, s.issued.value, s.encrypted.value, expires);
      log := log + [Stored(primary)];
      assert log == old(log) + (AuthsEvents(v, s.auths, 0) + [SawReady, Finalized, Stored(primary)]);
      return Issued;
    }
  }

  // --------------------------------------------------------------- the polls

  /** The poll loop, exactly: the first settled answer within the limit decides,
      a failed request ends it, and only silence to the end is a timeout. */
  lemma {:induction false} PollExact(polls: nat -> Answer<AuthStatus>, i: nat, limit: nat)
    requires i <= limit
    ensures var (end, n) := Poll(polls, i, limit);
            && (forall j | i <= j < n :: polls(j) == Some(Unsettled))
            && (end == PolledValid <==> polls(n) == Some(Valid))
            && (end == PolledInvalid <==> polls(n) == Some(Invalid))
            && (end == PollFailed <==> polls(n) == None)
            && (end == TimedOut <==> polls(n) == Some(Unsettled))
            && (end == TimedOut ==> n == limit)
    decreases limit - i
  {
    if polls(i) == Some(Unsettled) && i < limit {
      PollExact(polls, i + 1, limit);
    }
  }

  /** The number of status requests never passes the limit, and polling succeeds
      exactly when a Valid comes within it with only unsettled answers before. */
  lemma PollSucceeds(v: Variant, a: Authorization)
    ensures Poll(a.polls, 1, v.Limit()).1 <= (if v == Worker then 120 else 30)
    ensures End(v, a) == PolledValid <==>
              exists n | 1 <= n <= v.Limit() ::
                a.polls(n) == Some(Valid) && forall j | 1 <= j < n :: a.polls(j) == Some(Unsettled)
  {
    PollExact(a.polls, 1, v.Limit());
    var n := Poll(a.polls, 1, v.Limit()).1;
    if m :| 1 <= m <= v.Limit() && a.polls(m) == Some(Valid) && forall j | 1 <= j < m :: a.polls(j) == Some(Unsettled) {
      assert a.polls(n) != a.polls(m) || n == m;
    }
  }

  // -------------------------------------------------------------- the ledger

  /** The challenge records of a trace: those nobody has tried to delete yet, and
      those that are still at the provider. */
  datatype Books = Books(untried: set<(nat, string)>, left: set<(nat, string)>)

  function Ledger(log: seq<Event>): Books {
    if log == [] then Books({}, {})
    else
      var n := |log| - 1;
      Entered(Ledger(log[..n]), log[n])
  }

  function Entered(b: Books, e: Event): Books {
    match e
    case CreateTxt(k, _, rid) => Books(b.untried + {(k, rid)}, b.left + {(k, rid)})
    case DeleteTxt(k, _, rid, removed) => Books(b.untried - {(k, rid)}, b.left - if removed then {(k, rid)} else {})
    case _ => b
  }

  /** A record is created only when none waits for its delete, and a delete names
      the one that does. */
  ghost predicate Orderly(log: seq<Event>) {
    forall n | 0 <= n < |log| :: Follows(Ledger(log[..n]), log[n])
  }

  predicate Follows(b: Books, e: Event) {
    match e
    case CreateTxt(_, _, _) => b.untried == {}
    case DeleteTxt(k, _, rid, _) => b.untried == {(k, rid)}
    case _ => true
  }

  lemma LedgerSnoc(log: seq<Event>, e: Event)
    ensures Ledger(log + [e]) == Entered(Ledger(log), e)
    ensures Orderly(log) && Follows(Ledger(log), e) ==> Orderly(log + [e])
  {
    hide Follows, Entered;
    var all := log + [e];
    assert all[..|log|] == log;
    assert forall n | 0 <= n < |log| :: all[..n] == log[..n];
  }

  /** The record of an authorization is still there once the run is over with it. */
  predicate Keeps(v: Variant, a: Authorization) {
    Challenged(a) && (Leaks(v, a) || !a.removed)
  }

  function Record(a: Authorization, k: nat): set<(nat, string)> {
    if a.created.Some? then {(k, a.created.value)} else {}
  }

  lemma LedgerOfAuth(v: Variant, a: Authorization, k: nat, log: seq<Event>)
    requires Orderly(log) && Ledger(log).untried == {} && Record(a, k) !! Ledger(log).left
    ensures var after := log + AuthEvents(v, a, k);
            && Orderly(after)
            && Ledger(after).untried == (if Leaks(v, a) then Record(a, k) else {})
            && Ledger(after).left == Ledger(log).left + (if Keeps(v, a) then Record(a, k) else {})
  {
    hide Poll, Ledger, Orderly;
    if !Challenged(a) {
      assert log + AuthEvents(v, a, k) == log;
    } else {
      var rid := a.created.value;
      var create := CreateTxt(k, BareDomain(a.info.value.identifier), rid);
      var one := log + [create];
      LedgerSnoc(log, create);
      if Leaks(v, a) {
        assert log + AuthEvents(v, a, k) == one;
      } else {
        var seen := if Passes(v, a) then one + [SawValid(k)] else one;
        LedgerSnoc(one, SawValid(k));
        var delete := DeleteTxt(k, DeletedAt(v, a), rid, a.removed);
        LedgerSnoc(seen, delete);
        assert log + AuthEvents(v, a, k) == seen + [delete];
      }
    }
  }

  /** The run gets as far as this authorization. */
  predicate Reached(v: Variant, auths: seq<Authorization>, k: nat) {
    k < |auths| && forall j | 0 <= j < k :: Passes(v, auths[j])
  }

  /** The records of the authorizations from the k-th on that stay behind. */
  function Kept(v: Variant, auths: seq<Authorization>, k: nat): (r: set<(nat, string)>)
    requires k <= |auths|
    ensures forall i: nat, rid :: (i, rid) in r <==>
              k <= i < |auths| && (forall j | k <= j < i :: Passes(v, auths[j]))
              && Keeps(v, auths[i]) && auths[i].created == Some(rid)
    decreases |auths| - k
  {
    if k == |auths| then {}
    else
      (if Keeps(v, auths[k]) then Record(auths[k], k) else {}) +
      if Passes(v, auths[k]) then Kept(v, auths, k + 1) else {}
  }

  /** The authorization that ends the run by a request error, if one does. */
  function Broken(v: Variant, auths: seq<Authorization>, k: nat): set<(nat, string)>
    requires k <= |auths|
    decreases |auths| - k
  {
    if k == |auths| then {}
    else if Passes(v, auths[k]) then Broken(v, auths, k + 1)
    else if Leaks(v, auths[k]) then Record(auths[k], k)
    else {}
  }

  lemma {:induction false} LedgerOfAuths(v: Variant, auths: seq<Authorization>, k: nat, log: seq<Event>)
    requires k <= |auths| && Orderly(log) && Ledger(log).untried == {}
    requires forall r <- Ledger(log).left :: r.0 < k
    ensures var after := log + AuthsEvents(v, auths, k);
            && Orderly(after)
            && Ledger(after) == Books(Broken(v, auths, k), Ledger(log).left + Kept(v, auths, k))
    decreases |auths| - k
  {
    hide Ledger, Orderly, AuthEvents, Passes, Leaks, Keeps;
    if k == |auths| {
      assert log + AuthsEvents(v, auths, k) == log;
    } else {
      var here := AuthEvents(v, auths[k], k);
      LedgerOfAuth(v, auths[k], k, log);
      if Passes(v, auths[k]) {
        PassingDoesNotLeak(v, auths[k]);
        LedgerOfAuths(v, auths, k + 1, log + here);
        assert log + AuthsEvents(v, auths, k) == log + here + AuthsEvents(v, auths, k + 1);
      } else {
        assert here + [] == here;
      }
    }
  }

  lemma PassingDoesNotLeak(v: Variant, a: Authorization)
    requires Passes(v, a)
    ensures !Leaks(v, a)
  {
  }

  lemma PassingIsChallenged(v: Variant, a: Authorization)
    requires Passes(v, a)
    ensures Challenged(a)
  {
  }

  lemma {:induction false} OneUntried(log: seq<Event>)
    requires Orderly(log)
    ensures |Ledger(log).untried| <= 1
  {
    if log != [] {
      var n := |log| - 1;
      assert forall m | 0 <= m < n :: log[..n][..m] == log[..m];
      OneUntried(log[..n]);
      assert Follows(Ledger(log[..n]), log[n]);
    }
  }

  /** The challenge records of any run, whatever is answered, deletes included:
      a record is created only when every earlier one has had its delete, so at
      every moment at most one has not; every delete names that one; and what is
      left at the provider at the end is exactly the record whose run a request
      error ended, and the records whose delete did not take effect. */
  lemma TxtLedger(v: Variant, s: Script, domains: seq<string>)
    ensures var events := Issue(v, s, domains).events;
            && Orderly(events)
            && (forall n | 0 <= n <= |events| :: |Ledger(events[..n]).untried| <= 1)
            && (forall k: nat, rid :: (k, rid) in Ledger(events).left <==>
                  && s.ordered && Reached(v, s.auths, k)
                  && Challenged(s.auths[k]) && s.auths[k].created == Some(rid)
                  && (Leaks(v, s.auths[k]) || !s.auths[k].removed))
  {
    hide Passes, Leaks, AuthEvents, OrderWait, Ledger, Orderly;
    var events := Issue(v, s, domains).events;
    var auths := AuthsEvents(v, s.auths, 0);
    EmptyLedger();
    LedgerOfAuths(v, s.auths, 0, []);
    assert [] + auths == auths;
    if s.ordered && AllPass(v, s.auths, 0) {
      ClosingKeepsLedger(auths, Closing(v, s, domains).events);
    }
    forall n | 0 <= n <= |events| ensures |Ledger(events[..n]).untried| <= 1 {
      OrderlyPrefix(events, n);
      OneUntried(events[..n]);
    }
  }

  lemma EmptyLedger()
    ensures Orderly([]) && Ledger([]) == Books({}, {})
  {
  }

  lemma OrderlyPrefix(log: seq<Event>, n: nat)
    requires n <= |log| && Orderly(log)
    ensures Orderly(log[..n])
  {
    hide Follows, Ledger;
    assert forall m | 0 <= m < n :: log[..n][..m] == log[..m];
  }

  lemma ClosingKeepsLedger(log: seq<Event>, closing: seq<Event>)
    requires Orderly(log)
    requires closing <= [SawReady, Finalized] ||
             (|closing| == 3 && closing[..2] == [SawReady, Finalized] && closing[2].Stored?)
    ensures Ledger(log + closing) == Ledger(log) && Orderly(log + closing)
  {
    hide Ledger, Orderly;
    if |closing| == 0 {
      assert log + closing == log;
    } else {
      LedgerSnoc(log, closing[0]);
      assert log + closing[..1] == log + [closing[0]];
      if |closing| >= 2 {
        LedgerSnoc(log + [closing[0]], closing[1]);
        assert log + closing[..2] == log + [closing[0]] + [closing[1]];
      }
      if |closing| == 3 {
        LedgerSnoc(log + [closing[0]] + [closing[1]], closing[2]);
        assert log + closing == log + [closing[0]] + [closing[1]] + [closing[2]];
      } else {
        assert closing[..|closing|] == closing;
      }
    }
  }

  /** Deletes that do not take effect pile records up, and the run is none the
      wiser: with every other answer good it issues the certificate. */
  lemma RecordsPileUp(v: Variant, s: Script, domains: seq<string>)
    requires Issue(v, s, domains).outcome == Issued
    requires forall i | 0 <= i < |s.auths| :: !s.auths[i].removed
    ensures forall i | 0 <= i < |s.auths| :: s.auths[i].created.Some?
              && (i, s.auths[i].created.value) in Ledger(Issue(v, s, domains).events).left
  {
    hide Ledger, Leaks;
    TxtLedger(v, s, domains);
    assert AllPass(v, s.auths, 0);
  }

  // ------------------------------------------------------ deleting at Cloudflare

  /** The zone that creating or deleting a challenge record looks up. */
  function TxtZoneOf(domain: string, ask: string -> ZoneSearch.Listing): Result<string, ZoneSearch.SearchError> {
    ZoneSearch.TxtZone(ZoneSearch.Labels(domain), ask, 1)
  }

  /** Cloudflare created the record in the zone that was looked up, and removes it
      only if the delete looks the same zone up. */
  predicate AtCloudflare(v: Variant, a: Authorization, ask: string -> ZoneSearch.Listing) {
    Challenged(a) ==>
      var zone := TxtZoneOf(BareDomain(a.info.value.identifier), ask);
      zone.Ok? && (a.removed ==> TxtZoneOf(DeletedAt(v, a), ask) == zone)
  }

  /** Given that the create found a zone, the delete looks in another one if and
      only if the renewal loop has failed to validate a wildcard whose bare name is
      a zone itself. */
  lemma DeleteSearchesOtherZone(v: Variant, a: Authorization, ask: string -> ZoneSearch.Listing)
    requires ZoneSearch.Clean(ask) && ZoneSearch.DistinctZones(ask)
    requires a.info.Some? && TxtZoneOf(BareDomain(a.info.value.identifier), ask).Ok?
    ensures var id := a.info.value.identifier;
            TxtZoneOf(DeletedAt(v, a), ask) != TxtZoneOf(BareDomain(id), ask) <==>
              && v == Renewal && !Passes(v, a) && "*." <= id
              && ZoneSearch.Held(ZoneSearch.Labels(BareDomain(id)), ask, 0)
  {
    hide Passes;
    var id := a.info.value.identifier;
    if "*." <= id {
      assert id == "*." + BareDomain(id);
      ZoneSearch.WildcardZoneDiffers(BareDomain(id), ask);
    }
  }

  /** In any such run the record stays. */
  lemma WildcardRecordStays(s: Script, domains: seq<string>, k: nat, ask: string -> ZoneSearch.Listing)
    requires ZoneSearch.Clean(ask) && ZoneSearch.DistinctZones(ask)
    requires s.ordered && Reached(Renewal, s.auths, k) && AtCloudflare(Renewal, s.auths[k], ask)
    requires Challenged(s.auths[k]) && !Passes(Renewal, s.auths[k]) && "*." <= s.auths[k].info.value.identifier
    requires ZoneSearch.Held(ZoneSearch.Labels(BareDomain(s.auths[k].info.value.identifier)), ask, 0)
    ensures (k, s.auths[k].created.value) in Ledger(Issue(Renewal, s, domains).events).left
  {
    hide Passes, Ledger, Leaks;
    DeleteSearchesOtherZone(Renewal, s.auths[k], ask);
    TxtLedger(Renewal, s, domains);
  }

  /** Such a run, for any two zones one below the other: the record of the
      wildcard in the child is created in the parent and looked for in the child. */
  lemma WildcardDeleteMisses(first: string, parent: string, record: string)
    returns (a: Authorization, ask: string -> ZoneSearch.Listing)
    requires '.' !in first
    ensures ZoneSearch.Clean(ask) && ZoneSearch.DistinctZones(ask) && AtCloudflare(Renewal, a, ask)
    ensures var child := first + ("." + parent);
            && AuthEvents(Renewal, a, 0) == [CreateTxt(0, child, record), DeleteTxt(0, "*." + child, record, false)]
            && TxtZoneOf(child, ask) == Ok("parent") && TxtZoneOf("*." + child, ask) == Ok("child")
  {
    var child := first + ("." + parent);
    var id := "*." + child;
    a := Authorization(true, Some(AuthInfo(id, true)), Some(record), true, _ => Some(Invalid), false);
    ask := s => if s == child then ZoneSearch.Zone("child")
                else if s == parent then ZoneSearch.Zone("parent") else ZoneSearch.NoZones;
    assert |child| > |parent|;
    assert BareDomain(id) == child;
    ZoneSearch.ChildZone(first, parent, ask);
  }

  // ------------------------------------------------------------------ safety

  lemma {:induction false} AllValidSeen(v: Variant, auths: seq<Authorization>, k: nat)
    requires k <= |auths| && AllPass(v, auths, k)
    ensures forall i | k <= i < |auths| :: SawValid(i) in AuthsEvents(v, auths, k)
    decreases |auths| - k
  {
    if k < |auths| {
      hide AuthEvents, Passes;
      var here, rest := AuthEvents(v, auths[k], k), AuthsEvents(v, auths, k + 1);
      assert Passes(v, auths[k]) && AuthsEvents(v, auths, k) == here + rest;
      hide AuthsEvents;
      AllValidSeen(v, auths, k + 1);
      PassingIsSeen(v, auths[k], k);
      forall i | k <= i < |auths| ensures SawValid(i) in here + rest {
        if i > k { assert SawValid(i) in rest; }
      }
    }
  }

  lemma PassingIsSeen(v: Variant, a: Authorization, k: nat)
    requires Passes(v, a)
    ensures SawValid(k) in AuthEvents(v, a, k)
  {
    assert AuthEvents(v, a, k)[1] == SawValid(k);
  }

  lemma {:induction false} OrderWasReady(polls: seq<Answer<OrderStatus>>)
    ensures OrderWait(polls) == Issued <==>
              exists n | 0 <= n < |polls| ::
                polls[n] == Some(Ready) && forall m | 0 <= m < n :: polls[m] == Some(NotReady)
  {
    if polls != [] && polls[0] == Some(NotReady) {
      var rest := polls[1..];
      OrderWasReady(rest);
      if n :| 0 <= n < |rest| && rest[n] == Some(Ready) && forall m | 0 <= m < n :: rest[m] == Some(NotReady) {
        assert polls[n + 1] == Some(Ready);
        assert forall m | 0 <= m < n + 1 :: m > 0 ==> polls[m] == rest[m - 1];
      }
      if n :| 0 <= n < |polls| && polls[n] == Some(Ready) && forall m | 0 <= m < n :: polls[m] == Some(NotReady) {
        assert rest[n - 1] == Some(Ready);
      }
    }
    if polls != [] && polls[0] == Some(Ready) {
      assert exists n | 0 <= n < |polls| ::
          polls[n] == Some(Ready) && forall m | 0 <= m < n :: polls[m] == Some(NotReady);
    }
  }

  predicate OfAuth(e: Event) {
    e.CreateTxt? || e.DeleteTxt? || e.SawValid?
  }

  lemma OnlyOfAuth(v: Variant, a: Authorization, k: nat)
    ensures forall e <- AuthEvents(v, a, k) :: OfAuth(e)
  {
    hide Passes, Leaks;
  }

  lemma {:induction false} OnlyAuthEvents(v: Variant, auths: seq<Authorization>, k: nat)
    requires k <= |auths|
    ensures forall e <- AuthsEvents(v, auths, k) :: OfAuth(e)
    decreases |auths| - k
  {
    hide AuthEvents, Passes, OfAuth;
    if k < |auths| {
      OnlyOfAuth(v, auths[k], k);
      OnlyAuthEvents(v, auths, k + 1);
    }
  }

  /** A CSR is finalised only after every authorization was seen Valid and the
      order Ready, in that order, whatever happens next. */
  lemma NeverFinalizedEarly(v: Variant, s: Script, domains: seq<string>, n: nat)
    requires n < |Issue(v, s, domains).events| && Issue(v, s, domains).events[n] == Finalized
    ensures n > 0 && Issue(v, s, domains).events[n - 1] == SawReady
    ensures forall i | 0 <= i < |s.auths| :: SawValid(i) in Issue(v, s, domains).events[..n - 1]
    ensures forall i | 0 <= i < |s.auths| :: End(v, s.auths[i]) == PolledValid
  {
    hide AuthEvents, Ledger, OrderWait, Poll;
    var auths := AuthsEvents(v, s.auths, 0);
    var events := Issue(v, s, domains).events;
    OnlyAuthEvents(v, s.auths, 0);
    assert forall i | 0 <= i < |auths| :: auths[i] in auths && events[i] == auths[i];
    assert n == |auths| + 1;
    AllValidSeen(v, s.auths, 0);
    assert events[..n - 1] == auths;
  }

  /** A run ends Ok exactly when the account and order were opened, every
      authorization passed, the order became Ready before anything worse, and the
      closing requests went through; its trace then ends with those steps. */
  lemma IssuedExactly(v: Variant, s: Script, domains: seq<string>)
    ensures Issue(v, s, domains).outcome == Issued <==>
              && s.ordered && domains != [] && AllPass(v, s.auths, 0) && s.csr && s.finalized && s.issued.Some?
                  && s.encrypted.Some?
              && exists n | 0 <= n < |s.orderPolls| ::
                   s.orderPolls[n] == Some(Ready) && forall m | 0 <= m < n :: s.orderPolls[m] == Some(NotReady)
    ensures Issue(v, s, domains).outcome == Issued ==>
              && Issue(v, s, domains).events == AuthsEvents(v, s.auths, 0) + [SawReady, Finalized, Stored(domains[0])]
              && (forall i | 0 <= i < |s.auths| :: SawValid(i) in AuthsEvents(v, s.auths, 0))
              && (forall k: nat, rid :: (k, rid) in Ledger(Issue(v, s, domains).events).left <==>
                    k < |s.auths| && s.auths[k].created == Some(rid) && !s.auths[k].removed)
  {
    hide AuthEvents, Ledger, OrderWait, Passes, Leaks;
    OrderWasReady(s.orderPolls);
    TxtLedger(v, s, domains);
    if s.ordered && AllPass(v, s.auths, 0) {
      AllValidSeen(v, s.auths, 0);
      forall i | 0 <= i < |s.auths| ensures Challenged(s.auths[i]) && !Leaks(v, s.auths[i]) && Reached(v, s.auths, i) {
        PassingDoesNotLeak(v, s.auths[i]);
        PassingIsChallenged(v, s.auths[i]);
      }
    }
  }

  lemma {:induction false} OrderStillOpen(polls: seq<Answer<OrderStatus>>)
    ensures OrderWait(polls) == StillWaiting <==> forall n | 0 <= n < |polls| :: polls[n] == Some(NotReady)
    ensures OrderWait(polls) != Panicked
  {
    if polls != [] && polls[0] == Some(NotReady) {
      var rest := polls[1..];
      OrderStillOpen(rest);
      assert (forall n | 0 <= n < |rest| :: rest[n] == Some(NotReady)) ==>
          forall n | 0 <= n < |polls| :: n > 0 ==> polls[n] == rest[n - 1];
      assert forall n | 0 <= n < |rest| :: rest[n] == polls[n + 1];
    }
  }

  ghost predicate BecameReady(polls: seq<Answer<OrderStatus>>) {
    exists n | 0 <= n < |polls| :: polls[n] == Some(Ready) && forall m | 0 <= m < n :: polls[m] == Some(NotReady)
  }

  /** The other ways a run can end. Only the renewal loop panics, and only when it is
      asked for no domain and gets a certificate all the same, since only the worker
      looks before it asks; waiting goes on exactly as long as the order is in no
      final state; and a CSR goes out as soon as the order is ready and it can be
      made. */
  lemma EndingsExactly(v: Variant, s: Script, domains: seq<string>)
    ensures var run, passed := Issue(v, s, domains), s.ordered && AllPass(v, s.auths, 0);
            && (run.outcome == Panicked <==>
                  && passed && BecameReady(s.orderPolls) && v == Renewal && domains == []
                  && s.csr && s.finalized && s.issued.Some?)
            && (run.outcome == StillWaiting <==>
                  passed && forall n | 0 <= n < |s.orderPolls| :: s.orderPolls[n] == Some(NotReady))
            && (Finalized in run.events <==>
                  passed && BecameReady(s.orderPolls) && s.csr && (v == Worker ==> domains != []))
  {
    hide AuthEvents, OrderWait, Passes, BecameReady;
    assert OrderWait(s.orderPolls) == Issued <==> BecameReady(s.orderPolls) by { ReadyMeans(s.orderPolls); }
    OrderStillOpen(s.orderPolls);
    OnlyAuthEvents(v, s.auths, 0);
    ClosingFinalizes(v, s, domains);
    var auths, closing := AuthsEvents(v, s.auths, 0), Closing(v, s, domains).events;
    assert Finalized !in auths && forall e :: e in auths + closing <==> e in auths || e in closing;
  }

  lemma ClosingFinalizes(v: Variant, s: Script, domains: seq<string>)
    ensures Finalized in Closing(v, s, domains).events <==>
              OrderWait(s.orderPolls) == Issued && s.csr && (v == Worker ==> domains != [])
  {
    hide OrderWait;
    var closing := Closing(v, s, domains).events;
    assert |closing| >= 2 ==> closing[1] == Finalized;
    assert |closing| < 2 ==> closing == [] || closing == [SawReady];
  }

  lemma ReadyMeans(polls: seq<Answer<OrderStatus>>)
    ensures OrderWait(polls) == Issued <==> BecameReady(polls)
  {
    OrderWasReady(polls);
  }

  /** A rule bound to this id is served with this certificate under this key. */
  ghost predicate BoundTo(certs: map<string, StoredCert>, id: string, pem: string, key: string) {
    exists domain <- certs :: certs[domain].id == id && certs[domain].certPem == pem && certs[domain].keyPem == key
  }

  ghost predicate UniqueIds(certs: map<string, StoredCert>) {
    forall a <- certs, b <- certs :: certs[a].id == certs[b].id ==> a == b
  }

  /** Storing a certificate, the first of its domain or a renewed one: whatever is
      bound to the row's id gets the new certificate under its own key and nothing
      else. A renewed row keeps its id, ids stay unique as long as a new one is new,
      and rows of other domains are untouched. */
  lemma RenewalKeepsBinding(certs: map<string, StoredCert>, domain: string, newId: string, pem: string, key: string,
      expires: string)
    requires UniqueIds(certs) && forall d <- certs :: certs[d].id != newId
    ensures var after := StoreCert(certs, domain, newId, pem, key, expires);
            && UniqueIds(after)
            && (forall d | d != domain :: d in after <==> d in certs)
            && (forall d <- certs | d != domain :: after[d] == certs[d])
            && domain in after && after[domain].expiresAt == expires && after[domain].source == "acme"
            && (domain in certs ==> after[domain].id == certs[domain].id)
            && (domain !in certs ==> after[domain].id == newId)
            && forall p, k :: BoundTo(after, after[domain].id, p, k) <==> p == pem && k == key
  {
    var after := StoreCert(certs, domain, newId, pem, key, expires);
    assert after[domain].certPem == pem && after[domain].keyPem == key;
  }

  // ------------------------------------------- one authorization, told by answers

  /** The first settled answer comes within the limit and is this one. */
  ghost predicate Settles(polls: nat -> Answer<AuthStatus>, limit: nat, answer: Answer<AuthStatus>) {
    exists n | 1 <= n <= limit :: polls(n) == answer && forall j | 1 <= j < n :: polls(j) == Some(Unsettled)
  }

  lemma SettlesExactly(v: Variant, a: Authorization)
    ensures var limit := if v == Worker then 120 else 30;
            && (End(v, a) == PolledValid <==> Settles(a.polls, limit, Some(Valid)))
            && (End(v, a) == PollFailed <==> Settles(a.polls, limit, None))
  {
    PollExact(a.polls, 1, v.Limit());
    var n := Poll(a.polls, 1, v.Limit()).1;
    hide Poll;
    forall answer | answer != Some(Unsettled)
      ensures Settles(a.polls, v.Limit(), answer) <==> a.polls(n) == answer
    {
      if m :| 1 <= m <= v.Limit() && a.polls(m) == answer && forall j | 1 <= j < m :: a.polls(j) == Some(Unsettled) {
        assert !(n < m) && !(m < n);
      }
    }
  }

  /** The whole of one authorization, by what the other side answers: no record
      without a listed authorization that offers DNS-01 and a create that went
      through; the record goes on the name without its star; a request that fails
      after that leaves it there; any other end deletes it, where it was created or,
      when the renewal loop has failed, under the name with its star. */
  lemma AuthorizationExactly(v: Variant, a: Authorization, k: nat) returns (bare: string)
    ensures a.info.Some? ==>
              a.info.value.identifier == "*." + bare ||
              (a.info.value.identifier == bare && !("*." <= a.info.value.identifier))
    ensures !a.listed || a.info.None? || !a.info.value.hasDns01 || a.created.None? ==>
              AuthEvents(v, a, k) == [] && !Passes(v, a)
    ensures a.listed && a.info.Some? && a.info.value.hasDns01 && a.created.Some? ==>
              var limit := if v == Worker then 120 else 30;
              var id, record := a.info.value.identifier, a.created.value;
              var create := CreateTxt(k, bare, record);
              if (v == Worker && !a.ready) || Settles(a.polls, limit, None) then
                AuthEvents(v, a, k) == [create] && !Passes(v, a)
              else if Settles(a.polls, limit, Some(Valid)) then
                && AuthEvents(v, a, k) == [create, SawValid(k), DeleteTxt(k, bare, record, a.removed)]
                && Passes(v, a)
              else
                && AuthEvents(v, a, k) == [create, DeleteTxt(k, if v == Worker then bare else id, record, a.removed)]
                && !Passes(v, a)
  {
    hide Poll, Settles;
    SettlesExactly(v, a);
    bare := if a.info.Some? then BareDomain(a.info.value.identifier) else "";
  }
}
