/**
  Refresh tokens on the server: login stores one, refresh looks one up and rotates
  it in three statements, logout and a password change delete them. Statements of
  different requests interleave.
*/
module RefreshRotation {
  import opened Common
  import Expiry

  type Moment = m: Expiry.Moment | m.Valid() witness Expiry.Moment(Expiry.Date(0, 1, 1), 0, 0, 0, 0)

  /** since and line are history: under which of the user's passwords, counted from
      0, the session began, and the hashes of its tokens so far, its own last. A
      refresh hands both on. */
  datatype Row = Row(id: string, user: string, hash: string, expires: Moment, since: nat, line: seq<string>)

  /** A request between two of its statements. */
  datatype Stage =
    | Checked(user: string, since: nat)   // login: the password was right when it was read
    | Found(row: Row)                     // refresh: the row is looked up
    | Deleted(user: string, since: nat, line: seq<string>)   // refresh: the row is deleted, no new one yet
    | Verified(user: string)              // password change: the current password was right
    | Changed(user: string, since: nat)   // password change: the new password is stored

  /** versions counts the passwords stored for a user; owners and accepted are
      history: whom each issued token belongs to, and the tokens whose lookup let a
      refresh go on. */
  datatype State = State(rows: seq<Row>, requests: map<nat, Stage>, versions: map<string, nat>,
                         owners: map<string, string>, accepted: seq<string>)

  datatype Step =
    | CheckPassword(who: nat, user: string)
    | Lookup(who: nat, token: string, now: Moment)
    | DeleteRow(who: nat)
    | Insert(who: nat, token: string, id: string, expires: Moment)
    | Logout(token: string)
    | VerifyCurrent(who: nat, user: string)
    | WritePassword(who: nat)
    | Revoke(who: nat)

  /** The tokens that the one about to be inserted follows. */
  function LineSoFar(g: Stage): seq<string> {
    if g.Deleted? then g.line else []
  }

  function Version(s: State, user: string): nat {
    if user in s.versions then s.versions[user] else 0
  }

  /** The row of a token that the query finds, expiry compared as text. */
  function FindRow(rows: seq<Row>, h: string, now: Moment): Option<Row> {
    if rows == [] then None
    else if rows[0].hash == h && Expiry.Kept(rows[0].expires, now) then Some(rows[0])
    else FindRow(rows[1..], h, now)
  }

  function Without(rows: seq<Row>, drop: Row -> bool): (r: seq<Row>)
    ensures forall x :: x in r <==> x in rows && !drop(x)
    ensures |r| <= |rows|
  {
    if rows == [] then []
    else
      assert rows == [rows[0]] + rows[1..];
      (if drop(rows[0]) then [] else [rows[0]]) + Without(rows[1..], drop)
  }

  /** New tokens were never issued, and new row ids are not in use, not even by a
      request that has looked its row up. */
  predicate Fresh(s: State, token: string, id: string) {
    && token !in s.owners
    && (forall r <- s.rows :: r.id != id)
    && (forall w <- s.requests :: s.requests[w].Found? ==> s.requests[w].row.id != id)
  }

  predicate Can(s: State, step: Step) {
    match step
    case CheckPassword(who, _) => who !in s.requests
    case Lookup(who, _, _) => who !in s.requests
    case DeleteRow(who) => who in s.requests && s.requests[who].Found?
    case Insert(who, token, id, _) =>
      who in s.requests && (s.requests[who].Checked? || s.requests[who].Deleted?) && Fresh(s, token, id)
    case Logout(_) => true
    case VerifyCurrent(who, _) => who !in s.requests
    case WritePassword(who) => who in s.requests && s.requests[who].Verified?
    case Revoke(who) => who in s.requests && s.requests[who].Changed?
  }

  /** One statement. Requests that are turned away change nothing. */
  function Do(s: State, step: Step, hash: string -> string): State
    requires Can(s, step)
  {
    match step
    case CheckPassword(who, user) => s.(requests := s.requests[who := Checked(user, Version(s, user))])
    case Lookup(who, token, now) =>
      var row := FindRow(s.rows, hash(token), now);
      if row.None? then s
      else s.(requests := s.requests[who := Found(row.value)], accepted := s.accepted + [token])
    case DeleteRow(who) =>
      var row := s.requests[who].row;
      s.(rows := Without(s.rows, (r: Row) => r.id == row.id),
          requests := s.requests[who := Deleted(row.user, row.since, row.line)])
    case Insert(who, token, id, expires) =>
      var (user, since) := (s.requests[who].user, s.requests[who].since);
      var line := LineSoFar(s.requests[who]) + [hash(token)];
      s.(rows := s.rows + [Row(id, user, hash(token), expires, since, line)], owners := s.owners[token := user],
         requests := s.requests - {who})
    case Logout(token) => s.(rows := Without(s.rows, (r: Row) => r.hash == hash(token)))
    case VerifyCurrent(who, user) => s.(requests := s.requests[who := Verified(user)])
    case WritePassword(who) =>
      var user := s.requests[who].user;
      var version := Version(s, user) + 1;
      s.(versions := s.versions[user := version], requests := s.requests[who := Changed(user, version)])
    case Revoke(who) =>
      var user := s.requests[who].user;
      s.(rows := Without(s.rows, (r: Row) => r.user == user), requests := s.requests - {who})
  }

  predicate Leads(s: State, steps: seq<Step>, end: State, hash: string -> string)
    decreases |steps|
  {
    if steps == [] then s == end else Can(s, steps[0]) && Leads(Do(s, steps[0], hash), steps[1..], end, hash)
  }

  function Start(): State {
    State([], map[], map[], map[], [])
  }

  ghost predicate Injective(hash: string -> string) {
    forall a, b :: hash(a) == hash(b) ==> a == b
  }

  // ------------------------------------------------------- the code as it is

  /** A refresh that nothing interrupts, as one change of the table. */
  function Renewed(rows: seq<Row>, row: Row, hash: string, id: string, expires: Moment): seq<Row> {
    Without(rows, (r: Row) => r.id == row.id) + [Row(id, row.user, hash, expires, row.since, row.line + [hash])]
  }

  /** The row is the token's, and expires today or later. */
  predicate Good(r: Row, h: string, now: Moment) {
    r.hash == h && Expiry.DayNumber(now.date) <= Expiry.DayNumber(r.expires.date)
  }

  /** One row has made way for a new one of the same user and session. */
  ghost predicate Swapped(before: seq<Row>, after: seq<Row>, out: Row, h: string, id: string, expires: Moment) {
    exists made :: made in after && made.id == id && made.user == out.user && made.hash == h
      && made.expires == expires && made.since == out.since
      && forall r :: r in after <==> r == made || (r in before && r.id != out.id)
  }

  lemma FoundIsGood(rows: seq<Row>, h: string, now: Moment)
    ensures FindRow(rows, h, now).None? <==> forall r <- rows :: !Good(r, h, now)
    ensures FindRow(rows, h, now).Some? ==> FindRow(rows, h, now).value in rows && Good(FindRow(rows, h, now).value,
        h, now)
  {
    FindRowFinds(rows, h, now);
    forall r: Row ensures Good(r, h, now) <==> r.hash == h && Expiry.Kept(r.expires, now) {
      Expiry.KeptExactly(r.expires, now);
    }
    hide Expiry.Kept, FindRow, Good;
  }

  /** A refresh that nothing interrupts replaces a row of its token that expires
      today or later, and is turned away when there is none. */
  lemma RenewedSwaps(rows: seq<Row>, row: Row, h: string, id: string, expires: Moment)
    ensures Swapped(rows, Renewed(rows, row, h, id, expires), row, h, id, expires)
  {
    hide Without;
    var made := Row(id, row.user, h, expires, row.since, row.line + [h]);
    var after := Renewed(rows, row, h, id, expires);
    assert after[|after| - 1] == made;
  }

  class RefreshTokens {
    var rows: seq<Row>

    /** A user that does not exist has an empty id; verified says whether the
        password matches the stored hash, since which password that was. */
    method LogIn(userId: string, verified: bool, since: nat, token: string, id: string, expires: Moment,
        hash: string -> string)
      returns (cookie: Option<string>)
      modifies this
      ensures cookie == if verified && userId != "" then Some(token) else None
      ensures rows == if cookie.Some? then old(rows) + [Row(id, userId, hash(token), expires, since, [hash(token)])]
          else old(rows)
    {
      if !verified || userId == "" { return None; }
      rows := rows + [Row(id, userId, hash(token), expires, since, [hash(token)])];
      return Some(token);
    }

    method Refresh(cookie: Option<string>, now: Moment, token: string, id: string, expires: Moment,
        hash: string -> string)
      returns (renewed: Option<string>)
      modifies this
      ensures var found := if cookie.None? then None else FindRow(old(rows), hash(cookie.value), now);
              && renewed == (if found.Some? then Some(token) else None)
              && rows == (if found.Some? then Renewed(old(rows), found.value, hash(token), id, expires) else old(rows))
      ensures renewed.Some? <==> cookie.Some? && exists r <- old(rows) :: Good(r, hash(cookie.value), now)
      ensures renewed.None? ==> rows == old(rows)
      ensures renewed.Some? ==> renewed.value == token && exists r <- old(rows) ::
                Good(r, hash(cookie.value), now) && Swapped(old(rows), rows, r, hash(token), id, expires)
    {
      if cookie.Some? {
        FoundIsGood(rows, hash(cookie.value), now);
      }
      if cookie.None? { return None; }
      var row := FindRow(rows, hash(cookie.value), now);
      if row.None? { return None; }
      rows := Without(rows, (r: Row) => r.id == row.value.id);
      rows := rows + [Row(id, row.value.user, hash(token), expires, row.value.since, row.value.line + [hash(token)])];
      RenewedSwaps(old(rows), row.value, hash(token), id, expires);
      return Some(token);
    }

    method LogOut(cookie: Option<string>, hash: string -> string)
      modifies this
      ensures cookie.None? ==> rows == old(rows)
      ensures cookie.Some? ==> forall r :: r in rows <==> r in old(rows) && r.hash != hash(cookie.value)
    {
      if cookie.Some? {
        rows := Without(rows, (r: Row) => r.hash == hash(cookie.value));
      }
    }

    /** known: the user's row exists and the current password verifies. */
    method ChangePassword(user: string, known: bool) returns (ok: bool)
      modifies this
      ensures ok == known
      ensures !ok ==> rows == old(rows)
      ensures ok ==> forall r :: r in rows <==> r in old(rows) && r.user != user
    {
      if !known { return false; }
      rows := Without(rows, (r: Row) => r.user == user);
      return true;
    }
  }

  // --------------------------------------------------------------- invariants

  ghost predicate Distinct(rows: seq<Row>) {
    forall i, j | 0 <= i < j < |rows| :: rows[i].hash != rows[j].hash && rows[i].id != rows[j].id
  }

  /** Rows belong to issued tokens and to their owners, one row a token. */
  ghost predicate Inv(s: State, hash: string -> string) {
    && (forall r <- s.rows :: exists t <- s.owners :: r.hash == hash(t) && s.owners[t] == r.user)
    && Distinct(s.rows)
    && (forall t <- s.accepted :: t in s.owners)
  }

  lemma {:induction false} WithoutKeepsDistinct(rows: seq<Row>, drop: Row -> bool)
    requires Distinct(rows)
    ensures Distinct(Without(rows, drop))
  {
    if rows != [] {
      var rest := Without(rows[1..], drop);
      WithoutKeepsDistinct(rows[1..], drop);
      if !drop(rows[0]) {
        forall j | 0 <= j < |rest| ensures rows[0].hash != rest[j].hash && rows[0].id != rest[j].id {
          assert rest[j] in rest;
          var k :| 0 <= k < |rows| - 1 && rows[1..][k] == rest[j];
        }
        DistinctCons(rows[0], rest);
        assert Without(rows, drop) == [rows[0]] + rest;
      } else {
        assert Without(rows, drop) == [] + rest == rest;
      }
    }
  }

  lemma DistinctCons(row: Row, rest: seq<Row>)
    requires Distinct(rest) && forall j | 0 <= j < |rest| :: row.hash != rest[j].hash && row.id != rest[j].id
    ensures Distinct([row] + rest)
  {
  }

  lemma {:induction false} FindRowFinds(rows: seq<Row>, h: string, now: Moment)
    ensures FindRow(rows, h, now).Some? ==> FindRow(rows, h, now).value in rows && FindRow(rows, h, now).value.hash == h
                                            && Expiry.Kept(FindRow(rows, h, now).value.expires, now)
    ensures FindRow(rows, h, now).None? <==> forall r <- rows :: !(r.hash == h && Expiry.Kept(r.expires, now))
  {
    hide Expiry.Kept;
    if rows != [] {
      assert rows == [rows[0]] + rows[1..];
      FindRowFinds(rows[1..], h, now);
    }
  }

  lemma AddKeepsInv(s: State, t: State, made: Row, token: string, hash: string -> string)
    requires Inv(s, hash) && Injective(hash) && Fresh(s, token, made.id) && made.hash == hash(token)
    requires t.rows == s.rows + [made] && t.owners == s.owners[token := made.user] && t.accepted == s.accepted
    ensures Inv(t, hash)
  {
    forall r <- s.rows ensures r.hash != hash(token) {
      var o :| o in s.owners && r.hash == hash(o) && s.owners[o] == r.user;
    }
    forall r <- t.rows ensures exists o <- t.owners :: r.hash == hash(o) && t.owners[o] == r.user {
      if r in s.rows {
        var o :| o in s.owners && r.hash == hash(o) && s.owners[o] == r.user;
        assert t.owners[o] == r.user;
      } else {
        assert r == made && t.owners[token] == made.user;
      }
    }
    assert forall i | 0 <= i < |s.rows| :: s.rows[i] in s.rows && t.rows[i] == s.rows[i];
  }

  lemma DropKeepsInv(s: State, t: State, drop: Row -> bool, hash: string -> string)
    requires Inv(s, hash) && t.rows == Without(s.rows, drop) && t.owners == s.owners && t.accepted == s.accepted
    ensures Inv(t, hash)
  {
    WithoutKeepsDistinct(s.rows, drop);
  }

  lemma StepKeepsInv(s: State, step: Step, hash: string -> string)
    requires Inv(s, hash) && Injective(hash) && Can(s, step)
    ensures Inv(Do(s, step, hash), hash)
  {
    hide Injective, Without;
    var t := Do(s, step, hash);
    match step {
      case Insert(who, token, id, expires) => AddKeepsInv(s, t, t.rows[|s.rows|], token, hash);
      case Lookup(who, token, now) => LookupKeepsInv(s, who, token, now, hash);
      case DeleteRow(who) =>
        var row := s.requests[who].row;
        DropKeepsInv(s, t, (r: Row) => r.id == row.id, hash);
      case Logout(token) => DropKeepsInv(s, t, (r: Row) => r.hash == hash(token), hash);
      case Revoke(who) =>
        var user := s.requests[who].user;
        DropKeepsInv(s, t, (r: Row) => r.user == user, hash);
      case CheckPassword(who, user) =>
      case VerifyCurrent(who, user) =>
      case WritePassword(who) =>
    }
  }

  lemma LookupKeepsInv(s: State, who: nat, token: string, now: Moment, hash: string -> string)
    requires Inv(s, hash) && Injective(hash) && Can(s, Lookup(who, token, now))
    ensures Inv(Do(s, Lookup(who, token, now), hash), hash)
  {
    FindRowFinds(s.rows, hash(token), now);
    if FindRow(s.rows, hash(token), now).Some? {
      var r := FindRow(s.rows, hash(token), now).value;
      var o :| o in s.owners && r.hash == hash(o) && s.owners[o] == r.user;
      assert o == token;
    }
  }

  lemma {:induction false} RunKeepsInv(s: State, steps: seq<Step>, end: State, hash: string -> string)
    requires Inv(s, hash) && Injective(hash) && Leads(s, steps, end, hash)
    ensures Inv(end, hash)
    decreases |steps|
  {
    hide Inv, Injective, Do, Can;
    if steps != [] {
      StepKeepsInv(s, steps[0], hash);
      RunKeepsInv(Do(s, steps[0], hash), steps[1..], end, hash);
    }
  }

  // ------------------------------------------------------------- gone for good

  /** An issued token without a row. */
  ghost predicate Gone(s: State, token: string, hash: string -> string) {
    token in s.owners && forall r <- s.rows :: r.hash != hash(token)
  }

  lemma StepKeepsGone(s: State, step: Step, token: string, hash: string -> string)
    requires Injective(hash) && Can(s, step) && Gone(s, token, hash)
    ensures Gone(Do(s, step, hash), token, hash)
    ensures forall i | |s.accepted| <= i < |Do(s, step, hash).accepted| :: Do(s, step, hash).accepted[i] != token
    ensures s.accepted <= Do(s, step, hash).accepted
  {
    if step.Lookup? {
      FindRowFinds(s.rows, hash(step.token), step.now);
    }
  }

  /** Once gone, a token never comes back and is never accepted again. */
  lemma {:induction false} GoneForGood(s: State, steps: seq<Step>, end: State, token: string, hash: string -> string)
    requires Injective(hash) && Leads(s, steps, end, hash) && Gone(s, token, hash)
    ensures Gone(end, token, hash) && s.accepted <= end.accepted
    ensures forall i | |s.accepted| <= i < |end.accepted| :: end.accepted[i] != token
    decreases |steps|
  {
    hide Injective, Do, Can, Gone;
    if steps != [] {
      var next := Do(s, steps[0], hash);
      StepKeepsGone(s, steps[0], token, hash);
      GoneForGood(next, steps[1..], end, token, hash);
      forall i | |s.accepted| <= i < |end.accepted| ensures end.accepted[i] != token {
        if i < |next.accepted| { assert end.accepted[i] == next.accepted[i]; }
      }
    }
  }

  /** After a logout with it, an issued token is never accepted again, whatever
      other requests are under way. */
  lemma {:induction false} LogoutIsFinal(before: seq<Step>, s: State, token: string, after: seq<Step>, end: State,
      hash: string -> string)
    requires Injective(hash) && Leads(Start(), before, s, hash) && token in s.owners
    requires Leads(Do(s, Logout(token), hash), after, end, hash)
    ensures forall i | |s.accepted| <= i < |end.accepted| :: end.accepted[i] != token
    ensures s.accepted <= end.accepted
  {
    GoneForGood(Do(s, Logout(token), hash), after, end, token, hash);
  }

  /** A login or refresh under way whose session goes back to this token. */
  predicate GoesBackTo(g: Stage, h: string) {
    match g
    case Found(row) => h in row.line
    case Deleted(_, _, line) => h in line
    case _ => false
  }

  /** Nothing goes back to the token, and nothing will. */
  ghost predicate LineEnded(s: State, token: string, hash: string -> string) {
    && token in s.owners
    && (forall r <- s.rows :: hash(token) !in r.line)
    && (forall w <- s.requests :: !GoesBackTo(s.requests[w], hash(token)))
  }

  lemma StepKeepsLineEnded(s: State, step: Step, token: string, hash: string -> string)
    requires Injective(hash) && Can(s, step) && LineEnded(s, token, hash)
    ensures LineEnded(Do(s, step, hash), token, hash)
  {
    if step.Lookup? {
      FindRowFinds(s.rows, hash(step.token), step.now);
    }
    var t := Do(s, step, hash);
    forall w <- t.requests ensures !GoesBackTo(t.requests[w], hash(token)) {
      assert w in s.requests ==> !GoesBackTo(s.requests[w], hash(token));
    }
  }

  lemma {:induction false} LineEndedInRun(s: State, steps: seq<Step>, end: State, token: string, hash: string -> string)
    requires Injective(hash) && Leads(s, steps, end, hash) && LineEnded(s, token, hash)
    ensures LineEnded(end, token, hash)
    decreases |steps|
  {
    hide Do, Can, LineEnded, Injective;
    if steps != [] {
      StepKeepsLineEnded(s, steps[0], token, hash);
      LineEndedInRun(Do(s, steps[0], hash), steps[1..], end, token, hash);
    }
  }

  /** A refresh of the session under way at the logout goes on, and gives it a new
      token. */
  lemma RefreshOutlivesLogout(s: State, w: nat, token: string, newToken: string, id: string, expires: Moment,
      hash: string -> string)
    returns (steps: seq<Step>, end: State)
    requires w in s.requests && GoesBackTo(s.requests[w], hash(token)) && Fresh(s, newToken, id)
    ensures Leads(Do(s, Logout(token), hash), steps, end, hash)
    ensures |steps| <= 2 && forall step <- steps :: step.DeleteRow? || step.Insert?
    ensures exists r <- end.rows :: hash(token) in r.line && r.hash == hash(newToken)
  {
    hide Without, FindRow;
    var t := Do(s, Logout(token), hash);
    var insert := Insert(w, newToken, id, expires);
    var ready := if s.requests[w].Found? then Do(t, DeleteRow(w), hash) else t;
    end := Do(ready, insert, hash);
    var made := end.rows[|ready.rows|];
    assert made in end.rows && made.hash == hash(newToken);
    assert hash(token) in LineSoFar(ready.requests[w]);
    LeadsCons(ready, insert, [], end, hash);
    steps := [insert];
    if s.requests[w].Found? {
      LeadsCons(t, DeleteRow(w), [insert], end, hash);
      steps := [DeleteRow(w), insert];
    }
  }

  /** From a logout with a token on, no session goes back to it, in any run, if and
      only if no row but its own did already, and no refresh of such a session was
      under way. */
  lemma {:induction false} LogoutEndsSession(s: State, token: string, newToken: string, id: string, expires: Moment,
      hash: string -> string)
    requires Injective(hash) && token in s.owners && Fresh(s, newToken, id)
    ensures (forall steps, end :: Leads(Do(s, Logout(token), hash), steps, end, hash) ==>
                                    forall r <- end.rows :: hash(token) !in r.line) <==>
              && (forall r <- s.rows :: hash(token) in r.line ==> r.hash == hash(token))
              && (forall w <- s.requests :: !GoesBackTo(s.requests[w], hash(token)))
  {
    var h := hash(token);
    var t := Do(s, Logout(token), hash);
    var own, idle := forall r <- s.rows :: h in r.line ==> r.hash == h, forall w <- s.requests ::
        !GoesBackTo(s.requests[w], h);
    if !idle {
      var w :| w in s.requests && GoesBackTo(s.requests[w], h);
      var steps, end := RefreshOutlivesLogout(s, w, token, newToken, id, expires, hash);
      Reached(t, steps, end, h, hash);
    } else if !own {
      OtherRowStays(s, token, hash);
      var none: seq<Step> := [];
      assert Leads(t, none, t, hash);
      Reached(t, none, t, h, hash);
    } else {
      LogoutEnds(s, token, hash);
      hide Leads, Do;
      forall steps, end | Leads(t, steps, end, hash) ensures forall r <- end.rows :: h !in r.line {
        LineEndedInRun(t, steps, end, token, hash);
      }
    }
  }

  lemma Reached(t: State, steps: seq<Step>, end: State, h: string, hash: string -> string)
    requires Leads(t, steps, end, hash) && exists r <- end.rows :: h in r.line
    ensures !(forall steps, end :: Leads(t, steps, end, hash) ==> forall r <- end.rows :: h !in r.line)
  {
    hide Leads;
    assert !(forall r <- end.rows :: h !in r.line);
  }

  lemma OtherRowStays(s: State, token: string, hash: string -> string)
    requires exists r <- s.rows :: hash(token) in r.line && r.hash != hash(token)
    ensures exists r <- Do(s, Logout(token), hash).rows :: hash(token) in r.line
  {
    var r :| r in s.rows && hash(token) in r.line && r.hash != hash(token);
    assert r in Do(s, Logout(token), hash).rows;
  }

  lemma LogoutEnds(s: State, token: string, hash: string -> string)
    requires token in s.owners
    requires forall r <- s.rows :: hash(token) in r.line ==> r.hash == hash(token)
    requires forall w <- s.requests :: !GoesBackTo(s.requests[w], hash(token))
    ensures LineEnded(Do(s, Logout(token), hash), token, hash)
  {
  }

  ghost predicate Issued(owners: map<string, string>, h: string, hash: string -> string) {
    exists t <- owners :: h == hash(t)
  }

  ghost predicate LineIssued(owners: map<string, string>, line: seq<string>, hash: string -> string) {
    forall h <- line :: Issued(owners, h, hash)
  }

  /** As long as a token has its row, no other row goes back to it. */
  ghost predicate RowsLinear(rows: seq<Row>) {
    forall r <- rows, q <- rows :: r.hash in q.line ==> r.hash == q.hash
  }

  /** And no request does, but by having looked that row up. */
  ghost predicate StageLinear(rows: seq<Row>, g: Stage) {
    match g
    case Found(row) =>
      forall r <- rows :: (r.hash == row.hash <==> r.id == row.id) && (r.hash in row.line ==> r.hash == row.hash)
    case Deleted(_, _, line) => forall r <- rows :: r.hash !in line
    case _ => true
  }

  ghost predicate StageIssued(owners: map<string, string>, g: Stage, hash: string -> string) {
    match g
    case Found(row) => LineIssued(owners, row.line, hash) && Issued(owners, row.hash, hash)
    case Deleted(_, _, line) => LineIssued(owners, line, hash)
    case _ => true
  }

  ghost predicate Linear(s: State, hash: string -> string) {
    && RowsLinear(s.rows)
    && (forall r <- s.rows :: LineIssued(s.owners, r.line, hash))
    && (forall w <- s.requests :: StageLinear(s.rows, s.requests[w]) && StageIssued(s.owners, s.requests[w], hash))
  }

  lemma LookupKeepsLinear(s: State, step: Step, hash: string -> string)
    requires Inv(s, hash) && Linear(s, hash) && Can(s, step) && step.Lookup?
    ensures Linear(Do(s, step, hash), hash)
  {
    FindRowFinds(s.rows, hash(step.token), step.now);
    var found := FindRow(s.rows, hash(step.token), step.now);
    if found.Some? {
      var t := Do(s, step, hash);
      SameRowAs(s, found.value, hash);
      RowIsIssued(s, found.value, hash);
      assert StageLinear(s.rows, Found(found.value)) && StageIssued(s.owners, Found(found.value), hash);
      hide FindRow, Inv, StageLinear, StageIssued, RowsLinear, LineIssued;
      assert t == s.(requests := s.requests[step.who := Found(found.value)], accepted := s.accepted + [step.token]);
    }
  }

  lemma RowIsIssued(s: State, r: Row, hash: string -> string)
    requires Inv(s, hash) && r in s.rows
    ensures Issued(s.owners, r.hash, hash)
  {
  }

  lemma DeleteKeepsLinear(s: State, step: Step, hash: string -> string)
    requires Linear(s, hash) && Can(s, step) && step.DeleteRow?
    ensures Linear(Do(s, step, hash), hash)
  {
    var t := Do(s, step, hash);
    var row := s.requests[step.who].row;
    assert forall r <- t.rows :: r in s.rows && r.id != row.id;
    assert StageLinear(s.rows, Found(row)) && StageLinear(t.rows, Deleted(row.user, row.since, row.line));
    hide Without;
    StagesDrop(s.rows, t.rows);
    hide StageLinear, LineIssued;
  }

  lemma StagesDrop(rows: seq<Row>, fewer: seq<Row>)
    requires forall r <- fewer :: r in rows
    ensures forall g :: StageLinear(rows, g) ==> StageLinear(fewer, g)
    ensures RowsLinear(rows) ==> RowsLinear(fewer)
  {
  }

  /** Fewer rows, and requests that hold no row come and go. */
  lemma DropKeepsLinear(s: State, t: State, hash: string -> string)
    requires Linear(s, hash) && (forall r <- t.rows :: r in s.rows) && t.owners == s.owners
    requires forall w <- t.requests | t.requests[w].Found? || t.requests[w].Deleted? ::
               w in s.requests && t.requests[w] == s.requests[w]
    ensures Linear(t, hash)
  {
    StagesDrop(s.rows, t.rows);
    hide LineIssued, RowsLinear;
  }

  lemma InsertKeepsLinear(s: State, step: Step, hash: string -> string)
    requires Inv(s, hash) && Injective(hash) && Linear(s, hash) && Can(s, step) && step.Insert?
    ensures Linear(Do(s, step, hash), hash)
  {
    var t := Do(s, step, hash);
    var made, g := t.rows[|s.rows|], s.requests[step.who];
    assert t.rows == s.rows + [made] && made.hash == hash(step.token) && made.line == LineSoFar(g) + [made.hash];
    assert t.requests == s.requests - {step.who} && t.owners == s.owners[step.token := g.user];
    NewHash(s, step.token, hash);
    IssuedGrows(s.owners, step.token, g.user, hash);
    forall r <- s.rows ensures Issued(s.owners, r.hash, hash) { RowIsIssued(s, r, hash); }
    assert forall r <- s.rows :: r.hash !in LineSoFar(g) by { assert StageLinear(s.rows, g); }
    assert LineIssued(t.owners, made.line, hash) by {
      assert StageIssued(s.owners, g, hash);
      assert Issued(t.owners, made.hash, hash) by { assert step.token in t.owners; }
    }
    hide Do, Inv, Injective, Issued, LineSoFar, LineIssued;
    RowsGrow(s.rows, made, s.owners, hash);
    forall w <- t.requests
      ensures StageLinear(t.rows, t.requests[w]) && StageIssued(t.owners, t.requests[w], hash)
    {
      assert w in s.requests && t.requests[w] == s.requests[w];
      StageGrows(s.rows, made, s.owners, s.requests[w], hash);
    }
  }

  lemma IssuedGrows(owners: map<string, string>, token: string, user: string, hash: string -> string)
    ensures forall h :: Issued(owners, h, hash) ==> Issued(owners[token := user], h, hash)
    ensures forall line :: LineIssued(owners, line, hash) ==> LineIssued(owners[token := user], line, hash)
    ensures forall g :: StageIssued(owners, g, hash) ==> StageIssued(owners[token := user], g, hash)
  {
    forall h | Issued(owners, h, hash) ensures Issued(owners[token := user], h, hash) {
      var t :| t in owners && h == hash(t);
      assert t in owners[token := user];
    }
    hide Issued;
  }

  lemma RowsGrow(rows: seq<Row>, made: Row, owners: map<string, string>, hash: string -> string)
    requires RowsLinear(rows) && !Issued(owners, made.hash, hash)
    requires forall r <- rows :: LineIssued(owners, r.line, hash) && Issued(owners, r.hash, hash)
    requires forall r <- rows :: r.hash !in made.line || r.hash == made.hash
    ensures RowsLinear(rows + [made])
  {
    hide Issued;
    assert forall r <- rows + [made] :: r in rows || r == made;
  }

  lemma StageGrows(rows: seq<Row>, made: Row, owners: map<string, string>, g: Stage, hash: string -> string)
    requires StageLinear(rows, g) && StageIssued(owners, g, hash) && !Issued(owners, made.hash, hash)
    requires g.Found? ==> g.row.id != made.id
    ensures StageLinear(rows + [made], g)
  {
    hide Issued;
    assert forall r <- rows + [made] :: r in rows || r == made;
  }

  lemma NewHash(s: State, token: string, hash: string -> string)
    requires Injective(hash) && token !in s.owners
    ensures !Issued(s.owners, hash(token), hash)
  {
  }

  lemma StepKeepsLinear(s: State, step: Step, hash: string -> string)
    requires Inv(s, hash) && Injective(hash) && Linear(s, hash) && Can(s, step)
    ensures Linear(Do(s, step, hash), hash)
  {
    hide Linear, Inv, Injective, Without;
    var t := Do(s, step, hash);
    match step {
      case Lookup(_, _, _) => LookupKeepsLinear(s, step, hash);
      case DeleteRow(_) => DeleteKeepsLinear(s, step, hash);
      case Insert(_, _, _, _) => InsertKeepsLinear(s, step, hash);
      case Logout(_) => DropKeepsLinear(s, t, hash);
      case Revoke(_) => DropKeepsLinear(s, t, hash);
      case CheckPassword(_, _) => DropKeepsLinear(s, t, hash);
      case VerifyCurrent(_, _) => DropKeepsLinear(s, t, hash);
      case WritePassword(_) => DropKeepsLinear(s, t, hash);
    }
  }

  lemma {:induction false} RunKeepsLinear(s: State, steps: seq<Step>, end: State, hash: string -> string)
    requires Inv(s, hash) && Injective(hash) && Linear(s, hash) && Leads(s, steps, end, hash)
    ensures Linear(end, hash)
    decreases |steps|
  {
    hide Inv, Injective, Do, Can, Linear;
    if steps != [] {
      StepKeepsInv(s, steps[0], hash);
      StepKeepsLinear(s, steps[0], hash);
      RunKeepsLinear(Do(s, steps[0], hash), steps[1..], end, hash);
    }
  }

  /** So a logout with a token that has its row ends the session for good, in every
      run, if and only if no refresh has that row looked up and not yet deleted. */
  lemma {:induction false} LogoutOfCurrent(before: seq<Step>, s: State, token: string, newToken: string, id: string,
      expires: Moment, hash: string -> string)
    requires Injective(hash) && Leads(Start(), before, s, hash) && token in s.owners && Fresh(s, newToken, id)
    requires exists r <- s.rows :: r.hash == hash(token)
    ensures (forall steps, end :: Leads(Do(s, Logout(token), hash), steps, end, hash) ==>
                                    forall r <- end.rows :: hash(token) !in r.line) <==>
              forall w <- s.requests :: s.requests[w].Found? ==> s.requests[w].row.hash != hash(token)
  {
    RunKeepsLinear(Start(), before, s, hash);
    FoundFollows(before, s, hash);
    LogoutEndsSession(s, token, newToken, id, expires, hash);
    hide Leads, Do, Injective, StageIssued;
    var row :| row in s.rows && row.hash == hash(token);
    assert forall w <- s.requests :: GoesBackTo(s.requests[w], hash(token)) <==>
        s.requests[w].Found? && s.requests[w].row.hash == hash(token);
  }

  /** A row's line ends in its own token. */
  ghost predicate OwnLast(s: State) {
    && (forall r <- s.rows :: r.hash in r.line)
    && (forall w <- s.requests :: s.requests[w].Found? ==> s.requests[w].row.hash in s.requests[w].row.line)
  }

  lemma FoundFollows(steps: seq<Step>, end: State, hash: string -> string)
    requires Leads(Start(), steps, end, hash)
    ensures OwnLast(end)
  {
    RunKeepsOwn(Start(), steps, end, hash);
  }

  lemma {:induction false} RunKeepsOwn(s: State, steps: seq<Step>, end: State, hash: string -> string)
    requires OwnLast(s) && Leads(s, steps, end, hash)
    ensures OwnLast(end)
    decreases |steps|
  {
    hide OwnLast, Do, Can;
    if steps != [] {
      StepKeepsOwn(s, steps[0], hash);
      RunKeepsOwn(Do(s, steps[0], hash), steps[1..], end, hash);
    }
  }

  lemma StepKeepsOwn(s: State, step: Step, hash: string -> string)
    requires OwnLast(s) && Can(s, step)
    ensures OwnLast(Do(s, step, hash))
  {
    if step.Lookup? {
      FindRowFinds(s.rows, hash(step.token), step.now);
    }
    var t := Do(s, step, hash);
    forall w <- t.requests | t.requests[w].Found? ensures t.requests[w].row.hash in t.requests[w].row.line {
    }
  }

  /** After the delete of a password change, no token issued to that user before
      is accepted. */
  lemma {:induction false} PasswordChangeIsFinal(before: seq<Step>, s: State, who: nat, token: string,
      after: seq<Step>, end: State, hash: string -> string)
    requires Injective(hash) && Leads(Start(), before, s, hash) && Can(s, Revoke(who))
    requires token in s.owners && s.owners[token] == s.requests[who].user
    requires Leads(Do(s, Revoke(who), hash), after, end, hash)
    ensures forall i | |s.accepted| <= i < |end.accepted| :: end.accepted[i] != token
    ensures s.accepted <= end.accepted
  {
    RunKeepsInv(Start(), before, s, hash);
    var t := Do(s, Revoke(who), hash);
    forall r <- t.rows ensures r.hash != hash(token) {
      var o :| o in s.owners && r.hash == hash(o) && s.owners[o] == r.user;
    }
    GoneForGood(t, after, end, token, hash);
  }

  // ----------------------------------------------------- sessions of a user

  /** A login or a refresh under way that goes back to a password of this user
      from before the given one. */
  predicate Stale(g: Stage, user: string, since: nat) {
    match g
    case Found(row) => row.user == user && row.since < since
    case Checked(u, v) => u == user && v < since
    case Deleted(u, v, _) => u == user && v < since
    case _ => false
  }

  /** No session of the user goes back to before that password, and none will. */
  predicate Ended(s: State, user: string, since: nat) {
    && since <= Version(s, user)
    && (forall r <- s.rows :: r.user == user ==> since <= r.since)
    && (forall w <- s.requests :: !Stale(s.requests[w], user, since))
  }

  lemma StepKeepsEnded(s: State, step: Step, user: string, since: nat, hash: string -> string)
    requires Can(s, step) && Ended(s, user, since)
    ensures Ended(Do(s, step, hash), user, since)
  {
    if step.Lookup? {
      FindRowFinds(s.rows, hash(step.token), step.now);
    }
    var t := Do(s, step, hash);
    forall w <- t.requests ensures !Stale(t.requests[w], user, since) {
      assert w in s.requests ==> !Stale(s.requests[w], user, since);
    }
  }

  lemma {:induction false} EndedInRun(s: State, steps: seq<Step>, end: State, user: string, since: nat,
      hash: string -> string)
    requires Leads(s, steps, end, hash) && Ended(s, user, since)
    ensures Ended(end, user, since)
    decreases |steps|
  {
    hide Do, Can, Ended;
    if steps != [] {
      StepKeepsEnded(s, steps[0], user, since, hash);
      EndedInRun(Do(s, steps[0], hash), steps[1..], end, user, since, hash);
    }
  }

  /** Passwords are counted upwards. */
  predicate Counted(s: State) {
    forall w <- s.requests :: s.requests[w].Changed? ==> s.requests[w].since <= Version(s, s.requests[w].user)
  }

  lemma {:induction false} RunKeepsCounted(s: State, steps: seq<Step>, end: State, hash: string -> string)
    requires Counted(s) && Leads(s, steps, end, hash)
    ensures Counted(end)
    decreases |steps|
  {
    if steps != [] {
      StepKeepsCounted(s, steps[0], hash);
      RunKeepsCounted(Do(s, steps[0], hash), steps[1..], end, hash);
    }
  }

  lemma StepKeepsCounted(s: State, step: Step, hash: string -> string)
    requires Counted(s) && Can(s, step)
    ensures Counted(Do(s, step, hash))
  {
    var t := Do(s, step, hash);
    forall w <- t.requests | t.requests[w].Changed?
      ensures t.requests[w].since <= Version(t, t.requests[w].user)
    {
      assert w in s.requests;
    }
  }

  /** A login or refresh under way at the delete goes on: two statements at most
      give the user a session that goes back to before the change. */
  lemma OutlivesPasswordChange(s: State, who: nat, w: nat, token: string, id: string, expires: Moment,
      hash: string -> string)
    returns (steps: seq<Step>, end: State)
    requires Can(s, Revoke(who)) && w in s.requests && Fresh(s, token, id)
    requires Stale(s.requests[w], s.requests[who].user, s.requests[who].since)
    ensures Leads(Do(s, Revoke(who), hash), steps, end, hash)
    ensures |steps| <= 2 && forall step <- steps :: step.DeleteRow? || step.Insert?
    ensures exists r <- end.rows :: r.user == s.requests[who].user && r.since < s.requests[who].since
  {
    hide Without, FindRow;
    var t := Do(s, Revoke(who), hash);
    var insert := Insert(w, token, id, expires);
    var ready := if s.requests[w].Found? then Do(t, DeleteRow(w), hash) else t;
    end := Do(ready, insert, hash);
    var made := end.rows[|ready.rows|];
    assert made in end.rows && made.user == s.requests[who].user && made.since < s.requests[who].since;
    LeadsCons(ready, insert, [], end, hash);
    steps := [insert];
    if s.requests[w].Found? {
      LeadsCons(t, DeleteRow(w), [insert], end, hash);
      steps := [DeleteRow(w), insert];
    }
  }

  /** From the delete of a password change on, every session of the user, in every
      run, began with a login whose check followed the change, if and only if no
      login and no refresh that goes back to before it was under way. */
  lemma {:induction false} PasswordChangeEndsSessions(before: seq<Step>, s: State, who: nat, token: string, id: string,
      expires: Moment, hash: string -> string)
    requires Leads(Start(), before, s, hash) && Can(s, Revoke(who)) && Fresh(s, token, id)
    ensures var user, since := s.requests[who].user, s.requests[who].since;
            (forall steps, end :: Leads(Do(s, Revoke(who), hash), steps, end, hash) ==>
                                    forall r <- end.rows :: r.user == user ==> since <= r.since) <==>
            (forall w <- s.requests :: !Stale(s.requests[w], user, since))
  {
    hide Leads, Do;
    var user, since := s.requests[who].user, s.requests[who].since;
    var t := Do(s, Revoke(who), hash);
    if w :| w in s.requests && Stale(s.requests[w], user, since) {
      var steps, end := OutlivesPasswordChange(s, who, w, token, id, expires, hash);
      var r :| r in end.rows && r.user == user && r.since < since;
      assert Leads(t, steps, end, hash) && !(forall r <- end.rows :: r.user == user ==> since <= r.since);
    } else {
      RunKeepsCounted(Start(), before, s, hash);
      RevokeEnds(s, who, hash);
      forall steps, end | Leads(t, steps, end, hash)
        ensures forall r <- end.rows :: r.user == user ==> since <= r.since
      {
        EndedInRun(t, steps, end, user, since, hash);
      }
    }
  }

  lemma RevokeEnds(s: State, who: nat, hash: string -> string)
    requires Counted(s) && Can(s, Revoke(who))
    requires forall w <- s.requests :: !Stale(s.requests[w], s.requests[who].user, s.requests[who].since)
    ensures Ended(Do(s, Revoke(who), hash), s.requests[who].user, s.requests[who].since)
  {
  }

  lemma FirstSession(s: State, who: nat, user: string, token: string, id: string, expires: Moment,
      hash: string -> string)
    requires s.rows == [] && who in s.requests && s.requests[who] == Checked(user, 0) && Fresh(s, token, id)
    ensures Do(s, Insert(who, token, id, expires), hash).rows == [Row(id, user, hash(token), expires, 0, [hash(token)])]
    ensures Do(s, Insert(who, token, id, expires), hash).versions == s.versions
  {
    assert LineSoFar(s.requests[who]) + [hash(token)] == [hash(token)];
  }

  /** Such a run from the start, without any refresh: a login has its password
      checked, the password is changed and all sessions are deleted, and then the
      login stores a session for the old password. */
  lemma LoginOutlivesPasswordChange(user: string, token: string, id: string, expires: Moment, hash: string -> string)
    returns (end: State)
    ensures Leads(Start(), [CheckPassword(1, user), VerifyCurrent(2, user), WritePassword(2), Revoke(2),
                            Insert(1, token, id, expires)], end, hash)
    ensures end.rows == [Row(id, user, hash(token), expires, 0, [hash(token)])] && Version(end, user) == 1
  {
    hide FindRow;
    var s1 := Do(Start(), CheckPassword(1, user), hash);
    var s2 := Do(s1, VerifyCurrent(2, user), hash);
    var s3 := Do(s2, WritePassword(2), hash);
    var s4 := Do(s3, Revoke(2), hash);
    assert s4.rows == [] && s4.requests[1] == Checked(user, 0) && Fresh(s4, token, id);
    assert Version(s4, user) == 1;
    hide FindRow, Without;
    end := Do(s4, Insert(1, token, id, expires), hash);
    FirstSession(s4, 1, user, token, id, expires, hash);
    LeadsCons(s4, Insert(1, token, id, expires), [], end, hash);
    hide Do, Can;
    LeadsCons(s3, Revoke(2), [Insert(1, token, id, expires)], end, hash);
    LeadsCons(s2, WritePassword(2), [Revoke(2), Insert(1, token, id, expires)], end, hash);
    LeadsCons(s1, VerifyCurrent(2, user), [WritePassword(2), Revoke(2), Insert(1, token, id, expires)], end, hash);
    LeadsCons(Start(), CheckPassword(1, user),
              [VerifyCurrent(2, user), WritePassword(2), Revoke(2), Insert(1, token, id, expires)], end, hash);
  }

  // ------------------------------------------------------------- at most once

  /** A lookup that finds its row does not fall between another request's lookup
      of that row and its delete. */
  predicate NoOverlap(s: State, step: Step, hash: string -> string) {
    step.Lookup? && FindRow(s.rows, hash(step.token), step.now).Some? ==>
      forall w <- s.requests :: s.requests[w].Found? ==> s.requests[w].row.hash != hash(step.token)
  }

  predicate NeverOverlaps(s: State, steps: seq<Step>, hash: string -> string)
    decreases |steps|
  {
    steps != [] && Can(s, steps[0]) ==>
      NoOverlap(s, steps[0], hash) && NeverOverlaps(Do(s, steps[0], hash), steps[1..], hash)
  }

  ghost predicate NoRepeat(s: State) {
    forall i, j | 0 <= i < j < |s.accepted| :: s.accepted[i] != s.accepted[j]
  }

  /** A request has looked the token's row up and is about to delete it. */
  ghost predicate InFlight(s: State, token: string, hash: string -> string) {
    exists w <- s.requests :: s.requests[w].Found? && s.requests[w].row.hash == hash(token)
  }

  /** What has been accepted is gone or in flight. */
  ghost predicate Settled(s: State, hash: string -> string) {
    forall t <- s.accepted :: Gone(s, t, hash) || InFlight(s, t, hash)
  }

  /** What is in flight has been accepted. */
  ghost predicate Claimed(s: State, hash: string -> string) {
    forall w <- s.requests | s.requests[w].Found? :: exists t <- s.accepted :: s.requests[w].row.hash == hash(t)
  }

  /** Deleting by id deletes the row of that hash. */
  ghost predicate SameRow(s: State) {
    forall w <- s.requests | s.requests[w].Found? ::
      forall r <- s.rows :: r.hash == s.requests[w].row.hash <==> r.id == s.requests[w].row.id
  }

  ghost predicate Spent(s: State, hash: string -> string) {
    Settled(s, hash) && Claimed(s, hash) && SameRow(s) && NoRepeat(s)
  }

  lemma LookupKeepsSpent(s: State, step: Step, hash: string -> string)
    requires Inv(s, hash) && Injective(hash) && Spent(s, hash) && Can(s, step) && NoOverlap(s, step, hash)
        && step.Lookup?
    ensures Spent(Do(s, step, hash), hash)
  {
    FindRowFinds(s.rows, hash(step.token), step.now);
    var found := FindRow(s.rows, hash(step.token), step.now);
    if found.Some? {
      LookupFound(s, step, found.value, hash);
    }
  }

  lemma LookupFound(s: State, step: Step, r: Row, hash: string -> string)
    requires Inv(s, hash) && Injective(hash) && Spent(s, hash) && Can(s, step) && NoOverlap(s, step, hash)
        && step.Lookup?
    requires r in s.rows && r.hash == hash(step.token) && FindRow(s.rows, hash(step.token), step.now) == Some(r)
    ensures Spent(Do(s, step, hash), hash)
  {
    hide FindRow;
    var t := Do(s, step, hash);
    assert t == s.(requests := s.requests[step.who := Found(r)], accepted := s.accepted + [step.token]);
    assert Settled(t, hash) by {
      forall x <- t.accepted ensures Gone(t, x, hash) || InFlight(t, x, hash) {
        if x == step.token {
          assert t.requests[step.who].row.hash == hash(x);
        } else if !Gone(s, x, hash) {
          var w :| w in s.requests && s.requests[w].Found? && s.requests[w].row.hash == hash(x);
          assert t.requests[w] == s.requests[w];
        }
      }
    }
    assert Claimed(t, hash) by {
      assert step.token in t.accepted && forall x <- s.accepted :: x in t.accepted;
    }
    assert SameRow(t) by {
      SameRowAs(s, r, hash);
    }
    assert step.token !in s.accepted by {
      assert !Gone(s, step.token, hash);
    }
  }

  lemma SameRowAs(s: State, row: Row, hash: string -> string)
    requires Inv(s, hash) && row in s.rows
    ensures forall r <- s.rows :: r.hash == row.hash <==> r.id == row.id
  {
    var k :| 0 <= k < |s.rows| && s.rows[k] == row;
    forall r <- s.rows ensures r.hash == row.hash <==> r.id == row.id {
      var l :| 0 <= l < |s.rows| && s.rows[l] == r;
    }
  }

  lemma DeleteKeepsSpent(s: State, step: Step, hash: string -> string)
    requires Inv(s, hash) && Spent(s, hash) && Can(s, step) && step.DeleteRow?
    ensures Spent(Do(s, step, hash), hash)
  {
    var t := Do(s, step, hash);
    var row := s.requests[step.who].row;
    assert forall r <- t.rows :: r in s.rows && r.id != row.id;
    forall x <- t.accepted ensures Gone(t, x, hash) || InFlight(t, x, hash) {
      InvIssued(s, x, hash);
      AfterDelete(s, t, step.who, x, hash);
    }
    DeleteKeepsRest(s, t, step.who, hash);
  }

  lemma DeleteKeepsRest(s: State, t: State, who: nat, hash: string -> string)
    requires Claimed(s, hash) && SameRow(s) && NoRepeat(s) && who in s.requests && s.requests[who].Found?
    requires forall r <- t.rows :: r in s.rows
    requires t.requests == s.requests[who := Deleted(s.requests[who].row.user, s.requests[who].row.since,
        s.requests[who].row.line)]
        && t.accepted == s.accepted
    ensures Claimed(t, hash) && SameRow(t) && NoRepeat(t)
  {
    forall w <- t.requests | t.requests[w].Found? ensures w in s.requests && s.requests[w] == t.requests[w] {
    }
  }

  lemma AfterDelete(s: State, t: State, who: nat, x: string, hash: string -> string)
    requires (Gone(s, x, hash) || InFlight(s, x, hash)) && SameRow(s) && who in s.requests && s.requests[who].Found?
    requires x in s.owners && t.owners == s.owners
    requires forall r <- t.rows :: r in s.rows && r.id != s.requests[who].row.id
    requires t.requests == s.requests[who := Deleted(s.requests[who].row.user, s.requests[who].row.since,
        s.requests[who].row.line)]
    ensures Gone(t, x, hash) || InFlight(t, x, hash)
  {
    if !Gone(s, x, hash) {
      var w :| w in s.requests && s.requests[w].Found? && s.requests[w].row.hash == hash(x);
      if w != who {
        assert t.requests[w] == s.requests[w];
      }
    }
  }

  lemma InvIssued(s: State, x: string, hash: string -> string)
    requires Inv(s, hash) && x in s.accepted
    ensures x in s.owners
  {
  }

  lemma AddKeepsSpent(s: State, t: State, made: Row, token: string, hash: string -> string)
    requires Injective(hash) && Spent(s, hash) && Fresh(s, token, made.id) && Inv(s, hash) && made.hash == hash(token)
    requires t.rows == s.rows + [made] && t.owners == s.owners[token := made.user] && t.accepted == s.accepted
    requires t.requests.Keys <= s.requests.Keys && forall w <- s.requests :: s.requests[w].Found? ==> w in t.requests
    requires forall w <- t.requests :: t.requests[w] == s.requests[w]
    ensures Spent(t, hash)
  {
    assert Settled(t, hash) by {
      forall x <- t.accepted ensures Gone(t, x, hash) || InFlight(t, x, hash) {
        assert x in s.owners && x != token;
        if !Gone(s, x, hash) {
          var w :| w in s.requests && s.requests[w].Found? && s.requests[w].row.hash == hash(x);
          assert w in t.requests;
        }
      }
    }
    assert SameRow(t) by {
      forall w <- t.requests | t.requests[w].Found?
        ensures forall r <- t.rows :: r.hash == t.requests[w].row.hash <==> r.id == t.requests[w].row.id
      {
        var o :| o in s.accepted && s.requests[w].row.hash == hash(o);
        assert o in s.owners && o != token;
      }
    }
  }

  /** Dropping rows, and starting or ending requests that hold no row. */
  lemma DropKeepsSpent(s: State, t: State, hash: string -> string)
    requires Spent(s, hash) && (forall r <- t.rows :: r in s.rows) && t.owners == s.owners && t.accepted == s.accepted
    requires forall w :: (w in t.requests && t.requests[w].Found?) <==> (w in s.requests && s.requests[w].Found?)
    requires forall w <- t.requests :: t.requests[w].Found? ==> t.requests[w] == s.requests[w]
    ensures Spent(t, hash)
  {
    forall x <- t.accepted ensures Gone(t, x, hash) || InFlight(t, x, hash) {
      if Gone(s, x, hash) { assert Gone(t, x, hash); }
    }
  }

  lemma StepKeepsSpent(s: State, step: Step, hash: string -> string)
    requires Inv(s, hash) && Injective(hash) && Spent(s, hash) && Can(s, step)
    requires NoOverlap(s, step, hash)
    ensures Spent(Do(s, step, hash), hash)
  {
    hide Spent, Inv, Injective, Without;
    var t := Do(s, step, hash);
    match step {
      case Lookup(who, token, now) => LookupKeepsSpent(s, step, hash);
      case DeleteRow(who) => DeleteKeepsSpent(s, step, hash);
      case Insert(who, token, id, expires) => AddKeepsSpent(s, t, t.rows[|s.rows|], token, hash);
      case Logout(token) => DropKeepsSpent(s, t, hash);
      case Revoke(who) => DropKeepsSpent(s, t, hash);
      case CheckPassword(who, user) => DropKeepsSpent(s, t, hash);
      case VerifyCurrent(who, user) => DropKeepsSpent(s, t, hash);
      case WritePassword(who) => DropKeepsSpent(s, t, hash);
    }
  }

  lemma AcceptedGrows(s: State, step: Step, hash: string -> string)
    requires Can(s, step)
    ensures s.accepted <= Do(s, step, hash).accepted
  {
  }

  lemma {:induction false} AcceptedGrowsInRun(s: State, steps: seq<Step>, end: State, hash: string -> string)
    requires Leads(s, steps, end, hash)
    ensures s.accepted <= end.accepted
    decreases |steps|
  {
    hide Do, Can;
    if steps != [] {
      AcceptedGrows(s, steps[0], hash);
      AcceptedGrowsInRun(Do(s, steps[0], hash), steps[1..], end, hash);
    }
  }

  lemma OverlapRepeats(s: State, step: Step, hash: string -> string)
    requires Injective(hash) && Spent(s, hash) && Can(s, step) && !NoOverlap(s, step, hash)
    ensures !NoRepeat(Do(s, step, hash))
  {
    var w :| w in s.requests && s.requests[w].Found? && s.requests[w].row.hash == hash(step.token);
    var t :| t in s.accepted && s.requests[w].row.hash == hash(t);
    var i :| 0 <= i < |s.accepted| && s.accepted[i] == t;
    var after := Do(s, step, hash).accepted;
    assert after[i] == step.token == after[|s.accepted|];
  }

  lemma {:induction false} SpentInRun(s: State, steps: seq<Step>, end: State, hash: string -> string)
    requires Inv(s, hash) && Injective(hash) && Spent(s, hash) && Leads(s, steps, end, hash)
    ensures NoRepeat(end) <==> NeverOverlaps(s, steps, hash)
    decreases |steps|
  {
    hide Inv, Injective, Do, Can, NoOverlap;
    if steps != [] {
      var next := Do(s, steps[0], hash);
      if NoOverlap(s, steps[0], hash) {
        StepKeepsInv(s, steps[0], hash);
        StepKeepsSpent(s, steps[0], hash);
        SpentInRun(next, steps[1..], end, hash);
      } else {
        OverlapRepeats(s, steps[0], hash);
        AcceptedGrowsInRun(next, steps[1..], end, hash);
        var i, j :| 0 <= i < j < |next.accepted| && next.accepted[i] == next.accepted[j];
        assert end.accepted[i] == end.accepted[j];
      }
    }
  }

  /** Every refresh token is accepted at most once in a run exactly when no
      successful lookup falls between another request's lookup of the same row and
      its delete; requests handled one at a time are such runs. */
  lemma AcceptedAtMostOnce(steps: seq<Step>, end: State, hash: string -> string)
    requires Injective(hash) && Leads(Start(), steps, end, hash)
    ensures (forall i, j | 0 <= i < j < |end.accepted| :: end.accepted[i] != end.accepted[j]) <==>
        NeverOverlaps(Start(), steps, hash)
  {
    SpentInRun(Start(), steps, end, hash);
  }

  /** One request at a time: a lookup only starts with no other request under way. */
  predicate OneAtATime(s: State, steps: seq<Step>, hash: string -> string)
    decreases |steps|
  {
    steps != [] && Can(s, steps[0]) ==>
      (steps[0].Lookup? ==> s.requests == map[]) && OneAtATime(Do(s, steps[0], hash), steps[1..], hash)
  }

  lemma {:induction false} OneAtATimeNeverOverlaps(s: State, steps: seq<Step>, hash: string -> string)
    requires OneAtATime(s, steps, hash)
    ensures NeverOverlaps(s, steps, hash)
    decreases |steps|
  {
    hide Do, Can;
    if steps != [] && Can(s, steps[0]) {
      OneAtATimeNeverOverlaps(Do(s, steps[0], hash), steps[1..], hash);
    }
  }

  /** Every statement, told of the rows: which go, which stay, and what is written;
      who has a stage of a request afterwards, and that a lookup lets a token pass
      exactly when it has a row that expires today or later. */
  lemma StatementsExactly(s: State, step: Step, hash: string -> string, r: Row)
    requires Can(s, step)
    ensures var t := Do(s, step, hash);
            match step
            case CheckPassword(who, user) =>
              t.rows == s.rows && t.accepted == s.accepted && t.owners == s.owners && t.versions == s.versions
            case Lookup(who, token, now) =>
              && t.rows == s.rows && t.owners == s.owners && t.versions == s.versions
              && t.accepted == s.accepted + (if exists q <- s.rows :: Good(q, hash(token), now) then [token] else [])
            case DeleteRow(who) =>
              && (r in t.rows <==> r in s.rows && r.id != s.requests[who].row.id)
              && t.accepted == s.accepted && t.owners == s.owners && t.versions == s.versions
            case Insert(who, token, id, expires) =>
              && (r in t.rows && r !in s.rows ==>
                    && r.id == id && r.user == s.requests[who].user && r.hash == hash(token)
                    && r.expires == expires && r.since == s.requests[who].since)
              && s.rows <= t.rows && |t.rows| == |s.rows| + 1
              && t.accepted == s.accepted && token in t.owners && t.versions == s.versions
            case Logout(token) =>
              && (r in t.rows <==> r in s.rows && r.hash != hash(token))
              && t.accepted == s.accepted && t.owners == s.owners && t.versions == s.versions
            case VerifyCurrent(who, user) =>
              t.rows == s.rows && t.accepted == s.accepted && t.owners == s.owners && t.versions == s.versions
            case WritePassword(who) =>
              && t.rows == s.rows && t.accepted == s.accepted && t.owners == s.owners
              && Version(t, s.requests[who].user) == Version(s, s.requests[who].user) + 1
            case Revoke(who) =>
              && (r in t.rows <==> r in s.rows && r.user != s.requests[who].user)
              && t.accepted == s.accepted && t.owners == s.owners && t.versions == s.versions
  {
    hide Good, FindRow;
    match step {
      case Lookup(_, token, now) => FoundIsGood(s.rows, hash(token), now);
      case _ =>
    }
  }

  /** An uninterrupted refresh is one change of the table, and keeps the number of
      rows: one out, one in. */
  lemma RefreshKeepsCount(s: State, who: nat, token: string, now: Moment, newToken: string, newId: string,
      expires: Moment, hash: string -> string)
    requires Inv(s, hash) && Can(s, Lookup(who, token, now)) && FindRow(s.rows, hash(token), now).Some?
    requires Fresh(s, newToken, newId)
    ensures var s1 := Do(s, Lookup(who, token, now), hash);
            Can(s1, DeleteRow(who)) &&
            var s2 := Do(s1, DeleteRow(who), hash);
            Can(s2, Insert(who, newToken, newId, expires)) &&
            var s3 := Do(s2, Insert(who, newToken, newId, expires), hash);
            && s3.rows == Renewed(s.rows, FindRow(s.rows, hash(token), now).value, hash(newToken), newId, expires)
            && |s3.rows| == |s.rows| && s3.requests == s.requests && s3.accepted == s.accepted + [token]
  {
    hide Without, FindRow, Inv;
    LosesOne(s, hash(token), now, hash);
    var row := FindRow(s.rows, hash(token), now).value;
    assert Do(s, Lookup(who, token, now), hash).requests == s.requests[who := Found(row)];
    assert s.requests[who := Found(row)][who := Deleted(row.user, row.since, row.line)] - {who} == s.requests;
  }

  lemma LosesOne(s: State, h: string, now: Moment, hash: string -> string)
    requires Inv(s, hash) && FindRow(s.rows, h, now).Some?
    ensures var row := FindRow(s.rows, h, now).value;
            |Without(s.rows, (r: Row) => r.id == row.id)| == |s.rows| - 1
  {
    FindRowFinds(s.rows, h, now);
    var row := FindRow(s.rows, h, now).value;
    DropsOne(s.rows, row);
    WithoutSame(s.rows, (r: Row) => r.id == row.id, row);
  }

  function WithoutId(rows: seq<Row>, id: string): seq<Row> {
    if rows == [] then [] else (if rows[0].id == id then [] else [rows[0]]) + WithoutId(rows[1..], id)
  }

  lemma {:induction false} WithoutSame(rows: seq<Row>, drop: Row -> bool, row: Row)
    requires forall r :: drop(r) == (r.id == row.id)
    ensures Without(rows, drop) == WithoutId(rows, row.id)
  {
    if rows != [] { WithoutSame(rows[1..], drop, row); }
  }

  lemma {:induction false} DropsOne(rows: seq<Row>, row: Row)
    requires Distinct(rows)
    ensures |WithoutId(rows, row.id)| == |rows| - (if exists r <- rows :: r.id == row.id then 1 else 0)
  {
    if rows != [] {
      var rest := rows[1..];
      assert rows == [rows[0]] + rest;
      DropsOne(rest, row);
      if rows[0].id == row.id {
        forall r <- rest ensures r.id != row.id {
          var k :| 0 <= k < |rest| && rest[k] == r;
          assert rows[k + 1].id != rows[0].id;
        }
      }
    }
  }

  /** Two requests that look the same token up before either deletes its row are
      both accepted, and both get a new token: one session becomes two. */
  lemma OverlapAcceptsTwice(row: Row, token: string, now: Moment, t1: string, t2: string, id1: string, id2: string,
      hash: string -> string)
    returns (end: State)
    requires row.hash == hash(token) && Expiry.Kept(row.expires, now)
    requires t1 != token && t2 != token && t1 != t2 && id1 != row.id && id2 != row.id && id1 != id2
    ensures var start := State([row], map[], map[], map[token := row.user], []);
            Leads(start, [Lookup(1, token, now), Lookup(2, token, now), DeleteRow(1), Insert(1, t1, id1, row.expires),
                          DeleteRow(2), Insert(2, t2, id2, row.expires)], end, hash)
    ensures end.accepted == [token, token]
    ensures end.rows == [Row(id1, row.user, hash(t1), row.expires, row.since, row.line + [hash(t1)]),
        Row(id2, row.user, hash(t2), row.expires, row.since, row.line + [hash(t2)])]
  {
    hide Expiry.Kept;
    var s0 := State([row], map[], map[], map[token := row.user], []);
    assert FindRow([row], hash(token), now) == Some(row);
    var s1 := Do(s0, Lookup(1, token, now), hash);
    assert s1 == s0.(requests := map[1 := Found(row)], accepted := [token]);
    var s2 := Do(s1, Lookup(2, token, now), hash);
    assert s2 == s0.(requests := map[1 := Found(row), 2 := Found(row)], accepted := [token, token]);
    var inserts := [Insert(1, t1, id1, row.expires), DeleteRow(2), Insert(2, t2, id2, row.expires)];
    end := BothInsert(s2, row, token, t1, t2, id1, id2, hash);
    LeadsCons(s1, Lookup(2, token, now), [DeleteRow(1)] + inserts, end, hash);
    LeadsCons(s0, Lookup(1, token, now), [Lookup(2, token, now)] + ([DeleteRow(1)] + inserts), end, hash);
    assert [Lookup(1, token, now)] + ([Lookup(2, token, now)] + ([DeleteRow(1)] + inserts)) ==
        [Lookup(1, token, now), Lookup(2, token, now), DeleteRow(1), Insert(1, t1, id1, row.expires),
         DeleteRow(2), Insert(2, t2, id2, row.expires)];
  }

  lemma BothInsert(s2: State, row: Row, token: string, t1: string, t2: string, id1: string, id2: string,
      hash: string -> string)
    returns (end: State)
    requires s2 == State([row], map[1 := Found(row), 2 := Found(row)], map[], map[token := row.user], [token, token])
    requires t1 != token && t2 != token && t1 != t2 && id1 != row.id && id2 != row.id && id1 != id2
    ensures Leads(s2, [DeleteRow(1)] + [Insert(1, t1, id1, row.expires), DeleteRow(2),
        Insert(2, t2, id2, row.expires)], end, hash)
    ensures end.accepted == [token, token]
    ensures end.rows == [Row(id1, row.user, hash(t1), row.expires, row.since, row.line + [hash(t1)]),
        Row(id2, row.user, hash(t2), row.expires, row.since, row.line + [hash(t2)])]
  {
    hide Without, FindRow;
    var r1 := Row(id1, row.user, hash(t1), row.expires, row.since, row.line + [hash(t1)]);
    var s3 := Do(s2, DeleteRow(1), hash);
    DeletesLast(s2, 1, [], row, hash);
    var s4 := Do(s3, Insert(1, t1, id1, row.expires), hash);
    assert s4.rows == [r1];
    DeletesNone(s4, 2, r1, row, hash);
    var s5 := Do(s4, DeleteRow(2), hash);
    end := Do(s5, Insert(2, t2, id2, row.expires), hash);
    assert end.rows == [r1] + [Row(id2, row.user, hash(t2), row.expires, row.since, row.line + [hash(t2)])];
    hide Do, Can;
    LeadsCons(s5, Insert(2, t2, id2, row.expires), [], end, hash);
    LeadsCons(s4, DeleteRow(2), [Insert(2, t2, id2, row.expires)], end, hash);
    LeadsCons(s3, Insert(1, t1, id1, row.expires), [DeleteRow(2), Insert(2, t2, id2, row.expires)], end, hash);
    LeadsCons(s2, DeleteRow(1), [Insert(1, t1, id1, row.expires), DeleteRow(2), Insert(2, t2, id2, row.expires)], end,
        hash);
  }

  lemma DeletesLast(s: State, who: nat, none: seq<Row>, row: Row, hash: string -> string)
    requires s.rows == [row] && who in s.requests && s.requests[who] == Found(row) && none == []
    ensures Do(s, DeleteRow(who), hash) == s.(rows := [],
        requests := s.requests[who := Deleted(row.user, row.since, row.line)])
  {
    assert [row][1..] == none;
  }

  lemma DeletesNone(s: State, who: nat, kept: Row, row: Row, hash: string -> string)
    requires s.rows == [kept] && who in s.requests && s.requests[who] == Found(row) && kept.id != row.id
    ensures Do(s, DeleteRow(who), hash) == s.(requests := s.requests[who := Deleted(row.user, row.since, row.line)])
  {
    assert [kept][1..] == [];
  }

  lemma LeadsCons(s: State, step: Step, rest: seq<Step>, end: State, hash: string -> string)
    requires Can(s, step) && Leads(Do(s, step, hash), rest, end, hash)
    ensures Leads(s, [step] + rest, end, hash)
  {
    assert ([step] + rest)[1..] == rest;
  }
}
