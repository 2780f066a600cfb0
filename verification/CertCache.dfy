/**
  The in-memory certificate cache: how it is rebuilt from the database, and what
  the TLS resolver then answers for a server name.

  The rebuild never clears the cache, so each one is an overlay on the last. The
  module states the exact law of one rebuild, of any run of rebuilds, and of the
  resolver on top of them.
*/
module CertCache {
  import opened Common

  // -------------------------------------------------------------------- names

  function LowerChar(c: char): char {
    if 'A' <= c <= 'Z' then c - 'A' + 'a' else c
  }

  function Lower(s: string): (r: string)
    ensures |r| == |s|
    ensures forall i | 0 <= i < |s| :: r[i] == LowerChar(s[i])
  {
    seq(|s|, i requires 0 <= i < |s| => LowerChar(s[i]))
  }

  predicate SameDomain(a: string, b: string) {
    Lower(a) == Lower(b)
  }

  function FindDot(s: string): (r: Option<nat>)
    ensures r.Some? ==> r.value < |s| && s[r.value] == '.' && forall k | 0 <= k < r.value :: s[k] != '.'
    ensures r.None? ==> '.' !in s
  {
    if s == [] then None
    else if s[0] == '.' then Some(0)
    else
      var rest := FindDot(s[1..]);
      assert s == [s[0]] + s[1..];
      if rest.Some? then Some(rest.value + 1) else None
  }

  predicate IsWildcard(domain: string) {
    "*." <= domain
  }

  /** The certificate names the domain itself, or is the wildcard one label up. */
  predicate Covers(certDomain: string, domain: string) {
    || SameDomain(certDomain, domain)
    || (IsWildcard(certDomain) && CoversByWildcard(certDomain, domain))
  }

  predicate CoversByWildcard(certDomain: string, domain: string)
    requires IsWildcard(certDomain)
  {
    var dot := FindDot(domain);
    dot.Some? && SameDomain(certDomain[2..], domain[dot.value + 1..])
  }

  // ------------------------------------------------------------ the database

  /** An unexpired row of the certificates table. */
  datatype LiveRow = LiveRow(id: string, domain: string, certPem: string, keyPem: string)

  /** An enabled rule that has SSL switched on. */
  datatype Rule = Rule(domain: string, certId: Option<string>) {
    predicate Auto() { certId.None? || certId.value == "" }
  }

  datatype Snapshot = Snapshot(rows: seq<LiveRow>, rules: seq<Rule>)

  /** Key decryption and PEM parsing, both of which can fail for a row. */
  datatype Crypto<!K> = Crypto(decrypt: string -> Option<string>, parse: (string, string) -> Option<K>)

  function Load<K>(row: LiveRow, crypto: Crypto<K>): Option<K> {
    var key := crypto.decrypt(row.keyPem);
    if key.Some? then crypto.parse(row.certPem, key.value) else None
  }

  // ------------------------------------------------- what a rebuild computes

  /** Does this rule take this certificate? */
  predicate Binds(rule: Rule, row: LiveRow) {
    if rule.certId == Some(row.id) then true
    else if rule.Auto() then Covers(row.domain, rule.domain)
    else false
  }

  predicate Serves(row: LiveRow, rules: seq<Rule>, key: string) {
    exists r <- rules :: Lower(r.domain) == key && Binds(r, row)
  }

  /** The rows that are wildcards, or those that are not, in the order of the query. */
  function Half(rows: seq<LiveRow>, wild: bool): (r: seq<LiveRow>)
    ensures forall x :: x in r <==> x in rows && IsWildcard(x.domain) == wild
  {
    if rows == [] then []
    else
      assert rows == [rows[0]] + rows[1..];
      (if IsWildcard(rows[0].domain) == wild then [rows[0]] else []) + Half(rows[1..], wild)
  }

  /** The stable sort by "is not a wildcard". */
  function WildcardsFirst(rows: seq<LiveRow>): seq<LiveRow> {
    Half(rows, true) + Half(rows, false)
  }

  lemma {:induction false} HalvesAreAll(rows: seq<LiveRow>)
    ensures multiset(Half(rows, true)) + multiset(Half(rows, false)) == multiset(rows)
  {
    if rows != [] {
      assert rows == [rows[0]] + rows[1..];
      HalvesAreAll(rows[1..]);
    }
  }

  /** The sort loses and repeats no row, and puts every wildcard in front. */
  lemma WildcardsFirstSorts(rows: seq<LiveRow>)
    ensures multiset(WildcardsFirst(rows)) == multiset(rows)
    ensures forall i, j | 0 <= i < j < |WildcardsFirst(rows)| ::
              IsWildcard(WildcardsFirst(rows)[j].domain) ==> IsWildcard(WildcardsFirst(rows)[i].domain)
  {
    HalvesAreAll(rows);
    var w, n := Half(rows, true), Half(rows, false);
    assert forall k | 0 <= k < |n| :: n[k] in n;
    assert forall k | 0 <= k < |w| :: w[k] in w;
  }

  /** The last certificate of a list that loads and serves the key. */
  function Winner<K>(rows: seq<LiveRow>, rules: seq<Rule>, crypto: Crypto<K>, key: string): Option<K> {
    if rows == [] then None
    else
      var last := rows[|rows| - 1];
      if Load(last, crypto).Some? && Serves(last, rules, key) then Load(last, crypto)
      else Winner(rows[..|rows| - 1], rules, crypto, key)
  }

  function WinnerOr<K>(rows: seq<LiveRow>, rules: seq<Rule>, crypto: Crypto<K>, key: string,
      otherwise: Option<K>): Option<K> {
    var w := Winner(rows, rules, crypto, key);
    if w.Some? then w else otherwise
  }

  /** What the database says the key should be served with. */
  function Chosen<K>(db: Snapshot, crypto: Crypto<K>, key: string): Option<K> {
    Winner(WildcardsFirst(db.rows), db.rules, crypto, key)
  }

  function Lookup<K>(cache: map<string, K>, key: string): Option<K> {
    if key in cache then Some(cache[key]) else None
  }

  /** One rebuild: chosen keys are overwritten, all others are left alone. */
  ghost predicate Overlaid<K>(before: map<string, K>, after: map<string, K>, db: Snapshot, crypto: Crypto<K>) {
    forall key :: Lookup(after, key) ==
      if Chosen(db, crypto, key).Some? then Chosen(db, crypto, key) else Lookup(before, key)
  }

  function RuleKeys(rules: seq<Rule>): set<string> {
    set r <- rules :: Lower(r.domain)
  }

  function Rebuild<K>(before: map<string, K>, db: Snapshot, crypto: Crypto<K>): map<string, K> {
    map key | key in before.Keys + RuleKeys(db.rules) && (key in before || Chosen(db, crypto, key).Some?) ::
      if Chosen(db, crypto, key).Some? then Chosen(db, crypto, key).value else before[key]
  }

  lemma {:induction false} WinnerHasRule<K>(rows: seq<LiveRow>, rules: seq<Rule>, crypto: Crypto<K>, key: string)
    requires Winner(rows, rules, crypto, key).Some?
    ensures key in RuleKeys(rules)
  {
    var last := rows[|rows| - 1];
    if !(Load(last, crypto).Some? && Serves(last, rules, key)) {
      WinnerHasRule(rows[..|rows| - 1], rules, crypto, key);
    }
  }

  /** The overlay law has exactly one solution. */
  lemma OverlayExact<K>(before: map<string, K>, after: map<string, K>, db: Snapshot, crypto: Crypto<K>)
    ensures Overlaid(before, after, db, crypto) <==> after == Rebuild(before, db, crypto)
  {
    hide Chosen;
    var built := Rebuild(before, db, crypto);
    forall key
      ensures Lookup(built, key) ==
        if Chosen(db, crypto, key).Some? then Chosen(db, crypto, key) else Lookup(before, key)
    {
      if Chosen(db, crypto, key).Some? {
        WinnerHasRuleIn(db, crypto, key);
      }
    }
    if Overlaid(before, after, db, crypto) {
      forall key
        ensures key in after <==> key in built
        ensures key in after ==> after[key] == built[key]
      {
        assert Lookup(after, key) == Lookup(built, key);
      }
      assert after == built;
    }
  }

  lemma WinnerHasRuleIn<K>(db: Snapshot, crypto: Crypto<K>, key: string)
    requires Chosen(db, crypto, key).Some?
    ensures key in RuleKeys(db.rules)
  {
    WinnerHasRule(WildcardsFirst(db.rows), db.rules, crypto, key);
  }

  class Cache<K> {
    var entries: map<string, K>

    constructor ()
      ensures entries == map[]
    {
      entries := map[];
    }

    /** Decrypt every row, sort, then insert certificate by certificate and rule
        by rule. Rows that do not decrypt or parse are skipped. */
    method LoadCerts(db: Snapshot, crypto: Crypto<K>)
      modifies this
      ensures entries == Rebuild(old(entries), db, crypto)
    {
      hide Load, Serves, Winner, Lookup, Binds, Lower;
      var sorted := WildcardsFirst(db.rows);
      NothingWon(entries, db.rules, crypto);
      var i := 0;
      while i < |sorted|
        invariant 0 <= i <= |sorted|
        invariant WonBy(old(entries), entries, sorted[..i], db.rules, crypto)
      {
        var row := sorted[i];
        ghost var before := entries;
        var loaded := Load(row, crypto);
        if loaded.Some? {
          var j := 0;
          NothingServed(entries, row, loaded.value);
          while j < |db.rules|
            invariant 0 <= j <= |db.rules|
            invariant ServedBy(before, entries, row, db.rules[..j], loaded.value)
          {
            var rule := db.rules[j];
            ServedStep(before, entries, row, db.rules, j, loaded.value);
            if Binds(rule, row) {
              entries := entries[Lower(rule.domain) := loaded.value];
            }
            j := j + 1;
          }
          assert db.rules[..j] == db.rules;
        }
        WonStep(old(entries), before, entries, sorted, i, db.rules, crypto);
        i := i + 1;
      }
      assert sorted[..i] == sorted;
      OverlayExact(old(entries), entries, db, crypto);
    }

    /** The TLS resolver: the name itself, then the wildcard one label up. */
    method Resolve(serverName: Option<string>) returns (r: Option<K>)
      ensures r == Resolved(entries, serverName)
    {
      if serverName.None? { return None; }
      var sni := Lower(serverName.value);
      if sni in entries { return Some(entries[sni]); }
      var dot := FindDot(sni);
      if dot.Some? {
        var wildcard := "*" + sni[dot.value..];
        if wildcard in entries { return Some(entries[wildcard]); }
      }
      return None;
    }
  }

  /** The cache after the certificates of these rows, in this order. */
  ghost predicate WonBy<K>(before: map<string, K>, after: map<string, K>, rows: seq<LiveRow>, rules: seq<Rule>,
      crypto: Crypto<K>) {
    forall key :: Lookup(after, key) == WinnerOr(rows, rules, crypto, key, Lookup(before, key))
  }

  lemma NothingWon<K>(entries: map<string, K>, rules: seq<Rule>, crypto: Crypto<K>)
    ensures WonBy(entries, entries, [], rules, crypto)
  {
  }

  lemma NothingServed<K>(entries: map<string, K>, row: LiveRow, value: K)
    ensures ServedBy(entries, entries, row, [], value)
  {
  }

  lemma WonStep<K>(start: map<string, K>, before: map<string, K>, after: map<string, K>, sorted: seq<LiveRow>, i: nat,
      rules: seq<Rule>, crypto: Crypto<K>)
    requires i < |sorted| && WonBy(start, before, sorted[..i], rules, crypto)
    requires Load(sorted[i], crypto).None? ==> after == before
    requires Load(sorted[i], crypto).Some? ==> ServedBy(before, after, sorted[i], rules, Load(sorted[i], crypto).value)
    ensures WonBy(start, after, sorted[..i + 1], rules, crypto)
  {
    hide Load, Serves, Lookup;
    assert sorted[..i + 1][..i] == sorted[..i];
  }

  /** The cache after a certificate has been put under the keys of these rules. */
  ghost predicate ServedBy<K>(before: map<string, K>, after: map<string, K>, row: LiveRow, rules: seq<Rule>, value: K) {
    forall key :: Lookup(after, key) == (if Serves(row, rules, key) then Some(value) else Lookup(before, key))
  }

  lemma ServedStep<K>(before: map<string, K>, after: map<string, K>, row: LiveRow, rules: seq<Rule>, j: nat, value: K)
    requires j < |rules| && ServedBy(before, after, row, rules[..j], value)
    ensures Binds(rules[j], row) ==>
              ServedBy(before, after[Lower(rules[j].domain) := value], row, rules[..j + 1], value)
    ensures !Binds(rules[j], row) ==> ServedBy(before, after, row, rules[..j + 1], value)
  {
    hide Binds, Lower;
    assert rules[..j + 1] == rules[..j] + [rules[j]];
    var stored := after[Lower(rules[j].domain) := value];
    forall key
      ensures Serves(row, rules[..j + 1], key) <==>
                Serves(row, rules[..j], key) || (Lower(rules[j].domain) == key && Binds(rules[j], row))
      ensures Lookup(stored, key) == (if Lower(rules[j].domain) == key then Some(value) else Lookup(after, key))
    {
    }
  }

  /** The key of the wildcard fallback for a lower-cased name. */
  function WildcardKey(sni: string): Option<string> {
    var dot := FindDot(sni);
    if dot.Some? then Some("*" + sni[dot.value..]) else None
  }

  function Resolved<K>(cache: map<string, K>, serverName: Option<string>): Option<K> {
    if serverName.None? then None
    else
      var sni := Lower(serverName.value);
      if sni in cache then Some(cache[sni])
      else if WildcardKey(sni).Some? then Lookup(cache, WildcardKey(sni).value)
      else None
  }

  // ------------------------------------------------------- runs of rebuilds

  /** The cache after a run of rebuilds, starting empty. */
  function Run<K>(dbs: seq<Snapshot>, crypto: Crypto<K>): map<string, K> {
    if dbs == [] then map[]
    else Rebuild(Run(dbs[..|dbs| - 1], crypto), dbs[|dbs| - 1], crypto)
  }

  /** The entry of a key is the choice of the last rebuild that had one. */
  lemma {:induction false} RunExact<K>(dbs: seq<Snapshot>, crypto: Crypto<K>, key: string) returns (i: int)
    ensures Lookup(Run(dbs, crypto), key).Some? <==> 0 <= i
    ensures i < |dbs|
    ensures 0 <= i ==> Lookup(Run(dbs, crypto), key) == Chosen(dbs[i], crypto, key)
    ensures forall j | i < j < |dbs| && 0 <= j :: Chosen(dbs[j], crypto, key).None?
  {
    hide Chosen;
    if dbs == [] {
      i := -1;
    } else {
      var init, last := dbs[..|dbs| - 1], dbs[|dbs| - 1];
      OverlayExact(Run(init, crypto), Run(dbs, crypto), last, crypto);
      assert Lookup(Run(dbs, crypto), key) ==
        if Chosen(last, crypto, key).Some? then Chosen(last, crypto, key) else Lookup(Run(init, crypto), key);
      if Chosen(last, crypto, key).Some? {
        i := |dbs| - 1;
      } else {
        i := RunExact(init, crypto, key);
      }
    }
  }

  /** The cache answers what the current database says exactly when no key that
      was once served has since lost every certificate. */
  lemma RunIsFresh<K>(dbs: seq<Snapshot>, crypto: Crypto<K>)
    requires dbs != []
    ensures Run(dbs, crypto) == Rebuild(map[], dbs[|dbs| - 1], crypto) <==>
              (forall i, key :: 0 <= i < |dbs| && Chosen(dbs[i], crypto, key).Some? ==>
                                Chosen(dbs[|dbs| - 1], crypto, key).Some?)
  {
    hide Chosen;
    var last := dbs[|dbs| - 1];
    var run, current := Run(dbs, crypto), Rebuild(map[], last, crypto);
    OverlayExact(map[], current, last, crypto);
    forall key
      ensures Lookup(current, key) == Chosen(last, crypto, key)
      ensures Chosen(last, crypto, key).Some? ==> Lookup(run, key) == Chosen(last, crypto, key)
      ensures Lookup(run, key).Some? <==> exists i :: 0 <= i < |dbs| && Chosen(dbs[i], crypto, key).Some?
    {
      var i := RunExact(dbs, crypto, key);
      if Chosen(last, crypto, key).Some? {
        assert i == |dbs| - 1;
      }
    }
    if run == current {
      forall i, key | 0 <= i < |dbs| && Chosen(dbs[i], crypto, key).Some?
        ensures Chosen(last, crypto, key).Some?
      {
        assert Lookup(run, key) == Lookup(current, key);
      }
    }
    var nothingLost := forall i, key :: 0 <= i < |dbs| && Chosen(dbs[i], crypto, key).Some? ==>
        Chosen(last, crypto, key).Some?;
    if nothingLost {
      assert forall key :: key in run <==> Lookup(run, key).Some?;
      assert forall key :: key in current <==> Lookup(current, key).Some?;
      forall key | key in run
        ensures run[key] == current[key]
      {
        assert Lookup(run, key) == Some(run[key]) && Lookup(current, key) == Some(current[key]);
      }
      assert run == current;
    }
  }

  function RowsWithout(rows: seq<LiveRow>, id: string): seq<LiveRow> {
    if rows == [] then [] else (if rows[0].id == id then [] else [rows[0]]) + RowsWithout(rows[1..], id)
  }

  function RulesWithout(rules: seq<Rule>, id: string): seq<Rule> {
    if rules == [] then []
    else (if rules[0].certId == Some(id) then [] else [rules[0]]) + RulesWithout(rules[1..], id)
  }

  /** What deleting a certificate leaves: its row goes, and rules bound to it have
      SSL switched off. */
  function Deleted(db: Snapshot, id: string): Snapshot {
    Snapshot(RowsWithout(db.rows, id), RulesWithout(db.rules, id))
  }

  /** Deleting a certificate and rebuilding does not take it out of the cache:
      whether its rule was bound to it, and has SSL switched off, or picked it by
      coverage, the name keeps being served with the deleted certificate. */
  lemma DeletedCertificateStays<K>(crypto: Crypto<K>, row: LiveRow, rule: Rule)
    requires Load(row, crypto).Some? && Binds(rule, row)
    ensures var db := Snapshot([row], [rule]);
            && Deleted(db, row.id) == Snapshot([], if rule.certId == Some(row.id) then [] else [rule])
            && Run([db, Deleted(db, row.id)], crypto) == map[Lower(rule.domain) := Load(row, crypto).value]
            && Rebuild(map[], Deleted(db, row.id), crypto) == map[]
  {
    hide Load, Binds, Lower, WildcardsFirst, RowsWithout, RulesWithout;
    var with := Snapshot([row], [rule]);
    OneRow(row);
    OneRule(rule, row.id);
    var without := Deleted(with, row.id);
    assert [with, without][..1] == [with] && [with][..0] == [];
    NoRows();
    assert Serves(row, [rule], Lower(rule.domain)) by { assert rule in [rule]; }
    assert [row][..0] == [];
    assert Rebuild(map[], with, crypto) == map[Lower(rule.domain) := Load(row, crypto).value];
    assert Run([with], crypto) == Rebuild(map[], with, crypto);
    assert Run([with, without], crypto) == Rebuild(Run([with], crypto), without, crypto);
  }

  lemma NoRows()
    ensures WildcardsFirst([]) == []
  {
  }

  lemma OneRule(rule: Rule, id: string)
    ensures RulesWithout([rule], id) == if rule.certId == Some(id) then [] else [rule]
  {
    assert [rule][1..] == [];
    assert [rule] + [] == [rule];
  }

  lemma OneRow(row: LiveRow)
    ensures WildcardsFirst([row]) == [row] && RowsWithout([row], row.id) == []
  {
    assert [row][1..] == [];
    assert Half([row][1..], true) == Half([row][1..], false) == [];
  }

  // --------------------------------------------- which certificate is chosen

  /** The rows of a list that could be given to a key. */
  predicate Candidate<K>(row: LiveRow, rules: seq<Rule>, crypto: Crypto<K>, key: string) {
    Load(row, crypto).Some? && Serves(row, rules, key)
  }

  lemma {:induction false} WinnerIndex<K>(rows: seq<LiveRow>, rules: seq<Rule>, crypto: Crypto<K>, key: string)
      returns (i: int)
    ensures -1 <= i < |rows|
    ensures Winner(rows, rules, crypto, key).None? <==> i == -1
    ensures 0 <= i ==>
              Candidate(rows[i], rules, crypto, key) && Winner(rows, rules, crypto, key) == Load(rows[i], crypto)
    ensures forall j | i < j < |rows| && 0 <= j :: !Candidate(rows[j], rules, crypto, key)
  {
    hide Load, Serves;
    if rows == [] {
      i := -1;
    } else if Candidate(rows[|rows| - 1], rules, crypto, key) {
      i := |rows| - 1;
    } else {
      var init := rows[..|rows| - 1];
      i := WinnerIndex(init, rules, crypto, key);
      assert forall j | 0 <= j < |init| :: init[j] == rows[j];
    }
  }

  /** Ids and domains tell rows apart. */
  ghost predicate Distinct(rows: seq<LiveRow>) {
    && (forall a <- rows, b <- rows :: a.id == b.id ==> a == b)
    && (forall a <- rows, b <- rows :: SameDomain(a.domain, b.domain) ==> a == b)
  }

  /** A rule whose certificate id is the empty text, rather than missing, matches by
      coverage, but a row without an id it matches by id as well. This is not so. */
  ghost predicate Unblank(rule: Rule, rows: seq<LiveRow>) {
    rule.certId == Some("") ==> forall a <- rows :: a.id != ""
  }

  /** The rule is the only one with its lower-cased domain. */
  ghost predicate Sole(rule: Rule, rules: seq<Rule>) {
    rule in rules && forall r <- rules :: SameDomain(r.domain, rule.domain) ==> r == rule
  }

  /** The certificate a sole rule should get, told without any order: the bound
      one, else the exact one, else the wildcard. */
  ghost predicate Preferred<K>(row: LiveRow, rows: seq<LiveRow>, rule: Rule, crypto: Crypto<K>) {
    && row in rows && Load(row, crypto).Some?
    && if !rule.Auto() then Some(row.id) == rule.certId
       else
         || SameDomain(row.domain, rule.domain)
         || (&& Covers(row.domain, rule.domain)
             && forall e <- rows :: Load(e, crypto).Some? ==> !SameDomain(e.domain, rule.domain))
  }

  lemma LowerSlice(s: string, i: nat)
    requires i <= |s|
    ensures Lower(s[i..]) == Lower(s)[i..]
  {
  }

  lemma DotLower(s: string)
    ensures FindDot(Lower(s)) == FindDot(s)
  {
    assert forall k | 0 <= k < |s| :: Lower(s)[k] == '.' <==> s[k] == '.';
    assert '.' in Lower(s) <==> '.' in s;
  }

  /** Coverage only looks at names up to case. */
  lemma CoversUpToCase(cert: string, a: string, b: string)
    requires SameDomain(a, b)
    ensures Covers(cert, a) <==> Covers(cert, b)
  {
    DotLower(a);
    DotLower(b);
    if FindDot(a).Some? {
      LowerSlice(a, FindDot(a).value + 1);
      LowerSlice(b, FindDot(b).value + 1);
    }
  }

  /** Two wildcards that cover the same name are the same name. */
  lemma WildcardUnique(a: string, b: string, domain: string)
    requires IsWildcard(a) && IsWildcard(b) && CoversByWildcard(a, domain) && CoversByWildcard(b, domain)
    ensures SameDomain(a, b)
  {
    assert a == "*." + a[2..] && b == "*." + b[2..];
    LowerSlice(a, 2);
    LowerSlice(b, 2);
    assert Lower(a) == Lower(a)[..2] + Lower(a)[2..];
    assert Lower(b) == Lower(b)[..2] + Lower(b)[2..];
    assert Lower(a)[..2] == Lower(b)[..2];
  }

  /** A wildcard's own name is covered by that wildcard alone. */
  lemma WildcardOfWildcard(cert: string, domain: string)
    requires IsWildcard(cert) && IsWildcard(domain) && CoversByWildcard(cert, domain)
    ensures SameDomain(cert, domain)
  {
    assert domain[0] == '*' && domain[1] == '.';
    assert FindDot(domain) == Some(1);
    WildcardUnique(cert, domain, domain);
  }

  lemma SoleServes(row: LiveRow, rule: Rule, rules: seq<Rule>)
    requires Sole(rule, rules)
    ensures Serves(row, rules, Lower(rule.domain)) <==> Binds(rule, row)
  {
  }

  /** The candidates of an automatic rule are its exact certificate and its
      wildcard, and the exact one comes later in the sorted order. */
  lemma ExactComesLast(rows: seq<LiveRow>, exact: LiveRow, other: LiveRow, domain: string, i: nat, j: nat)
    requires Distinct(rows) && exact in rows && other in rows && exact != other
    requires SameDomain(exact.domain, domain) && Covers(other.domain, domain)
    requires var s := WildcardsFirst(rows); i < |s| && j < |s| && s[i] == exact && s[j] == other
    ensures j < i
  {
    assert !SameDomain(other.domain, domain);
    assert IsWildcard(other.domain) && CoversByWildcard(other.domain, domain);
    if IsWildcard(exact.domain) {
      CoversUpToCase(other.domain, domain, exact.domain);
      if !SameDomain(other.domain, exact.domain) {
        WildcardOfWildcard(other.domain, exact.domain);
      }
      assert false;
    }
    var s, w, n := WildcardsFirst(rows), Half(rows, true), Half(rows, false);
    assert forall k | 0 <= k < |w| :: s[k] in w;
    assert forall k | |w| <= k < |s| :: s[k] in n;
  }

  lemma SortedRows(rows: seq<LiveRow>)
    ensures forall r :: r in WildcardsFirst(rows) <==> r in rows
  {
  }

  /** The rebuild gives a sole rule its preferred certificate, and nothing when
      there is none, in whatever order the rows arrive. */
  lemma ChosenIsPreferred<K>(db: Snapshot, crypto: Crypto<K>, rule: Rule)
    requires Distinct(db.rows) && Sole(rule, db.rules) && Unblank(rule, db.rows)
    ensures forall row <- db.rows :: Preferred(row, db.rows, rule, crypto) ==>
              Chosen(db, crypto, Lower(rule.domain)) == Load(row, crypto)
    ensures Chosen(db, crypto, Lower(rule.domain)).Some? ==>
        exists row <- db.rows :: Preferred(row, db.rows, rule, crypto)
  {
    hide Load, WildcardsFirst, SameDomain, Covers;
    var key := Lower(rule.domain);
    var sorted := WildcardsFirst(db.rows);
    SortedRows(db.rows);
    var i := WinnerIndex(sorted, db.rules, crypto, key);
    assert forall k | 0 <= k < |sorted| :: sorted[k] in db.rows;
    forall row <- db.rows | Preferred(row, db.rows, rule, crypto)
      ensures Chosen(db, crypto, key) == Load(row, crypto)
    {
      var k :| 0 <= k < |sorted| && sorted[k] == row;
      SoleServes(row, rule, db.rules);
      PreferredBinds(db, crypto, rule, row);
      assert Candidate(row, db.rules, crypto, key);
      assert k <= i;
      SoleServes(sorted[i], rule, db.rules);
      if sorted[i] != row {
        PreferredIsLast(db, crypto, rule, row, sorted[i], k, i);
      }
    }
    if 0 <= i {
      SoleServes(sorted[i], rule, db.rules);
      CandidateGivesPreferred(db, crypto, rule, sorted[i]);
    }
  }

  lemma PreferredBinds<K>(db: Snapshot, crypto: Crypto<K>, rule: Rule, row: LiveRow)
    requires Preferred(row, db.rows, rule, crypto)
    ensures Binds(rule, row)
  {
    hide Load, SameDomain;
  }

  /** Any other row that binds the rule sits before the preferred one. */
  lemma PreferredIsLast<K>(db: Snapshot, crypto: Crypto<K>, rule: Rule, row: LiveRow, other: LiveRow, k: nat, i: nat)
    requires Distinct(db.rows) && Unblank(rule, db.rows) && Preferred(row, db.rows, rule, crypto)
    requires other in db.rows && other != row && Load(other, crypto).Some? && Binds(rule, other)
    requires var s := WildcardsFirst(db.rows); k < |s| && i < |s| && s[k] == row && s[i] == other
    ensures i < k
  {
    hide Load, WildcardsFirst;
    if rule.Auto() {
      assert Covers(other.domain, rule.domain);
      if SameDomain(row.domain, rule.domain) {
        ExactComesLast(db.rows, row, other, rule.domain, k, i);
      } else {
        WildcardUnique(row.domain, other.domain, rule.domain);
      }
    }
  }

  lemma CandidateGivesPreferred<K>(db: Snapshot, crypto: Crypto<K>, rule: Rule, row: LiveRow)
    requires Distinct(db.rows) && Unblank(rule, db.rows)
    requires row in db.rows && Load(row, crypto).Some? && Binds(rule, row)
    ensures exists r <- db.rows :: Preferred(r, db.rows, rule, crypto)
  {
    hide Load, SameDomain, Covers;
    if !rule.Auto() {
      assert Preferred(row, db.rows, rule, crypto);
    } else if exact :| exact in db.rows && Load(exact, crypto).Some? && SameDomain(exact.domain, rule.domain) {
      assert Preferred(exact, db.rows, rule, crypto);
    } else {
      assert Preferred(row, db.rows, rule, crypto);
    }
  }

  // --------------------------------------------------- the order of the rows

  /** A row that some order of the queries gives the key to: it could be given to
      the key, and no row that sorts behind it could. */
  ghost predicate Top<K>(row: LiveRow, db: Snapshot, crypto: Crypto<K>, key: string) {
    && row in db.rows && Candidate(row, db.rules, crypto, key)
    && (IsWildcard(row.domain) ==> forall c <- db.rows :: Candidate(c, db.rules, crypto, key) ==> IsWildcard(c.domain))
  }

  /** Any two such rows carry the same certificate. */
  ghost predicate TopsAgree<K>(db: Snapshot, crypto: Crypto<K>) {
    forall key, a, b :: Top(a, db, crypto, key) && Top(b, db, crypto, key) ==> Load(a, crypto) == Load(b, crypto)
  }

  /** The same rows and rules, each as often. */
  ghost predicate Reordered(db: Snapshot, db': Snapshot) {
    multiset(db'.rows) == multiset(db.rows) && multiset(db'.rules) == multiset(db.rules)
  }

  ghost predicate SameMembers(db: Snapshot, db': Snapshot) {
    (forall r :: r in db.rows <==> r in db'.rows) && (forall r :: r in db.rules <==> r in db'.rules)
  }

  lemma ChosenIsTop<K>(db: Snapshot, crypto: Crypto<K>, key: string) returns (row: LiveRow)
    requires Chosen(db, crypto, key).Some?
    ensures Top(row, db, crypto, key) && Chosen(db, crypto, key) == Load(row, crypto)
  {
    hide Candidate, Load, Half;
    var w, n := Half(db.rows, true), Half(db.rows, false);
    var sorted := WildcardsFirst(db.rows);
    var i := WinnerIndex(sorted, db.rules, crypto, key);
    row := sorted[i];
    SortedRows(db.rows);
    assert row in sorted;
    if IsWildcard(row.domain) {
      assert forall k | |w| <= k < |sorted| :: sorted[k] in n;
      assert i < |w|;
      forall c <- n ensures !Candidate(c, db.rules, crypto, key) {
        var k :| 0 <= k < |n| && n[k] == c;
        assert sorted[|w| + k] == c;
      }
    }
  }

  lemma NobodyChosen<K>(db: Snapshot, crypto: Crypto<K>, key: string)
    requires Chosen(db, crypto, key).None?
    ensures forall row <- db.rows :: !Candidate(row, db.rules, crypto, key)
  {
    hide Candidate;
    var sorted := WildcardsFirst(db.rows);
    var i := WinnerIndex(sorted, db.rules, crypto, key);
    SortedRows(db.rows);
    forall row <- db.rows ensures !Candidate(row, db.rules, crypto, key) {
      var k :| 0 <= k < |sorted| && sorted[k] == row;
    }
  }

  /** What a key is given depends on the order only as far as its top rows differ. */
  lemma TopsDecide<K>(db: Snapshot, db': Snapshot, crypto: Crypto<K>, key: string)
    requires SameMembers(db, db') && TopsAgree(db, crypto)
    ensures Chosen(db, crypto, key) == Chosen(db', crypto, key)
  {
    hide Chosen, Load;
    assert forall row :: Candidate(row, db.rules, crypto, key) <==> Candidate(row, db'.rules, crypto, key);
    hide Candidate;
    if Chosen(db, crypto, key).Some? && Chosen(db', crypto, key).Some? {
      var a := ChosenIsTop(db, crypto, key);
      var b := ChosenIsTop(db', crypto, key);
      assert Top(b, db, crypto, key);
    } else if Chosen(db, crypto, key).Some? {
      var a := ChosenIsTop(db, crypto, key);
      NobodyChosen(db', crypto, key);
    } else if Chosen(db', crypto, key).Some? {
      var b := ChosenIsTop(db', crypto, key);
      NobodyChosen(db, crypto, key);
    }
  }

  lemma TopsDecideAll<K>(before: map<string, K>, db: Snapshot, db': Snapshot, crypto: Crypto<K>)
    requires SameMembers(db, db') && TopsAgree(db, crypto)
    ensures Rebuild(before, db, crypto) == Rebuild(before, db', crypto)
  {
    hide Chosen, Rebuild, TopsAgree, SameMembers;
    forall key ensures Chosen(db, crypto, key) == Chosen(db', crypto, key) {
      TopsDecide(db, db', crypto, key);
    }
    OverlayExact(before, Rebuild(before, db, crypto), db', crypto);
    OverlayExact(before, Rebuild(before, db, crypto), db, crypto);
  }

  lemma {:induction false} HalfSnoc(rows: seq<LiveRow>, row: LiveRow, wild: bool)
    ensures Half(rows + [row], wild) == Half(rows, wild) + if IsWildcard(row.domain) == wild then [row] else []
  {
    if rows == [] {
      assert rows + [row] == [row] && [row][1..] == [];
    } else {
      hide IsWildcard;
      assert (rows + [row])[1..] == rows[1..] + [row] && (rows + [row])[0] == rows[0];
      HalfSnoc(rows[1..], row, wild);
      var head := if IsWildcard(rows[0].domain) == wild then [rows[0]] else [];
      var tail := if IsWildcard(row.domain) == wild then [row] else [];
      assert Half(rows + [row], wild) == head + Half(rows[1..] + [row], wild);
      assert head + (Half(rows[1..], wild) + tail) == head + Half(rows[1..], wild) + tail;
    }
  }

  /** A top row that the query lists last is the one chosen. */
  lemma LastTopIsChosen<K>(others: seq<LiveRow>, row: LiveRow, rules: seq<Rule>, crypto: Crypto<K>, key: string)
    requires Top(row, Snapshot(others + [row], rules), crypto, key)
    ensures Chosen(Snapshot(others + [row], rules), crypto, key) == Load(row, crypto)
  {
    hide Candidate, Load, Half;
    HalfSnoc(others, row, true);
    HalfSnoc(others, row, false);
    var rows := others + [row];
    var w, n := Half(rows, true), Half(rows, false);
    var sorted := WildcardsFirst(rows);
    var last := if IsWildcard(row.domain) then |w| - 1 else |sorted| - 1;
    assert sorted[last] == row;
    var i := WinnerIndex(sorted, rules, crypto, key);
    assert forall k | |w| <= k < |sorted| :: sorted[k] in n && sorted[k] in rows;
    assert i == last;
  }

  /** The same rows with one moved to the end. */
  lemma MoveToEnd(rows: seq<LiveRow>, row: LiveRow) returns (others: seq<LiveRow>)
    requires row in rows
    ensures multiset(others + [row]) == multiset(rows)
  {
    var k :| 0 <= k < |rows| && rows[k] == row;
    others := rows[..k] + rows[k + 1..];
    assert rows == rows[..k] + [row] + rows[k + 1..];
  }

  lemma TopMoved<K>(db: Snapshot, row: LiveRow, crypto: Crypto<K>, key: string) returns (db': Snapshot)
    requires Top(row, db, crypto, key)
    ensures Reordered(db, db') && Chosen(db', crypto, key) == Load(row, crypto)
  {
    hide Chosen, Load, Candidate;
    var others := MoveToEnd(db.rows, row);
    db' := Snapshot(others + [row], db.rules);
    forall r ensures r in db.rows <==> r in db'.rows {
      assert r in db.rows <==> r in multiset(db.rows);
      assert r in db'.rows <==> r in multiset(db'.rows);
    }
    LastTopIsChosen(others, row, db.rules, crypto, key);
  }

  lemma ReorderedMembers(db: Snapshot, db': Snapshot)
    requires Reordered(db, db')
    ensures SameMembers(db, db')
  {
    assert forall r :: r in db.rows <==> r in multiset(db.rows);
    assert forall r :: r in db'.rows <==> r in multiset(db'.rows);
    assert forall r :: r in db.rules <==> r in multiset(db.rules);
    assert forall r :: r in db'.rules <==> r in multiset(db'.rules);
  }

  /** The order in which the two queries list their rows does not matter, whatever
      the cache held before, if and only if the top rows of every key carry one
      certificate. */
  lemma OrderMattersExactly<K(!new)>(db: Snapshot, crypto: Crypto<K>)
    ensures (forall db', before :: Reordered(db, db') ==> Rebuild(before, db, crypto) == Rebuild(before, db',
        crypto)) <==>
              TopsAgree(db, crypto)
  {
    hide Rebuild, Top, Load, Chosen;
    if TopsAgree(db, crypto) {
      forall db', before | Reordered(db, db') ensures Rebuild(before, db, crypto) == Rebuild(before, db', crypto) {
        ReorderedMembers(db, db');
        TopsDecideAll(before, db, db', crypto);
      }
    }
    if forall db', before :: Reordered(db, db') ==> Rebuild(before, db, crypto) == Rebuild(before, db', crypto) {
      forall key, a, b | Top(a, db, crypto, key) && Top(b, db, crypto, key)
        ensures Load(a, crypto) == Load(b, crypto)
      {
        var none: map<string, K> := map[];
        var dbA := TopMoved(db, a, crypto, key);
        var dbB := TopMoved(db, b, crypto, key);
        assert Rebuild(none, db, crypto) == Rebuild(none, dbA, crypto) == Rebuild(none, dbB, crypto);
        FreshAnswer(dbA, crypto, key);
        FreshAnswer(dbB, crypto, key);
        assert Load(a, crypto) == Load(b, crypto) by { TopLoads(db, a, crypto, key); TopLoads(db, b, crypto, key); }
      }
    }
  }

  lemma FreshAnswer<K>(db: Snapshot, crypto: Crypto<K>, key: string)
    ensures Lookup(Rebuild(map[], db, crypto), key) == Chosen(db, crypto, key)
  {
    OverlayExact(map[], Rebuild(map[], db, crypto), db, crypto);
    assert Overlaid(map[], Rebuild(map[], db, crypto), db, crypto);
  }

  lemma TopLoads<K>(db: Snapshot, row: LiveRow, crypto: Crypto<K>, key: string)
    requires Top(row, db, crypto, key)
    ensures Load(row, crypto).Some?
  {
  }

  /** Two enabled rules for one name, bound to two certificates: whichever the
      query happens to list last is served. */
  lemma TwoRulesOrderMatters<K>(crypto: Crypto<K>, domain: string, a: LiveRow, b: LiveRow)
    requires a.id != b.id && !IsWildcard(a.domain) && !IsWildcard(b.domain)
    requires Load(a, crypto).Some? && Load(b, crypto).Some? && Load(a, crypto) != Load(b, crypto)
    ensures var rules := [Rule(domain, Some(a.id)), Rule(domain, Some(b.id))];
            && Chosen(Snapshot([a, b], rules), crypto, Lower(domain)) == Load(b, crypto)
            && Chosen(Snapshot([b, a], rules), crypto, Lower(domain)) == Load(a, crypto)
            && !TopsAgree(Snapshot([a, b], rules), crypto)
  {
    hide Load;
    var rules := [Rule(domain, Some(a.id)), Rule(domain, Some(b.id))];
    assert rules[0] in rules && rules[1] in rules && Binds(rules[0], a) && Binds(rules[1], b);
    TwoPlainRows(a, b);
    TwoPlainRows(b, a);
    assert Top(a, Snapshot([a, b], rules), crypto, Lower(domain))
        && Top(b, Snapshot([a, b], rules), crypto, Lower(domain));
  }

  /** With distinct ids and domains, one rule a name, and no empty id on both sides,
      a key has one top row. */
  lemma OneTop<K>(db: Snapshot, crypto: Crypto<K>, key: string, a: LiveRow, b: LiveRow)
    requires Distinct(db.rows) && forall r <- db.rules :: Sole(r, db.rules) && Unblank(r, db.rows)
    requires Top(a, db, crypto, key) && Top(b, db, crypto, key)
    ensures a == b
  {
    hide Load;
    var rule :| rule in db.rules && Lower(rule.domain) == key && Binds(rule, a);
    SoleServes(b, rule, db.rules);
    assert Binds(rule, b);
    if rule.Auto() {
      SameTop(a, b, rule.domain);
    }
  }

  lemma SameTop(a: LiveRow, b: LiveRow, domain: string)
    requires Covers(a.domain, domain) && Covers(b.domain, domain) && (IsWildcard(a.domain) <==> IsWildcard(b.domain))
    ensures SameDomain(a.domain, b.domain)
  {
    if SameDomain(a.domain, domain) && !SameDomain(b.domain, domain) {
      WildcardCoversExact(b.domain, a.domain, domain);
    } else if SameDomain(b.domain, domain) && !SameDomain(a.domain, domain) {
      WildcardCoversExact(a.domain, b.domain, domain);
    } else if !SameDomain(a.domain, domain) {
      WildcardUnique(a.domain, b.domain, domain);
    }
  }

  lemma WildcardCoversExact(wild: string, exact: string, domain: string)
    requires Covers(wild, domain) && SameDomain(exact, domain) && IsWildcard(wild) && IsWildcard(exact)
    ensures SameDomain(wild, exact)
  {
    CoversUpToCase(wild, domain, exact);
    if !SameDomain(wild, exact) {
      WildcardOfWildcard(wild, exact);
    }
  }

  /** So then the same rows and rules, listed in any other order, rebuild the same
      cache. */
  lemma OrderIndependent<K>(before: map<string, K>, db: Snapshot, db': Snapshot, crypto: Crypto<K>)
    requires SameMembers(db, db')
    requires Distinct(db.rows) && forall r <- db.rules :: Sole(r, db.rules) && Unblank(r, db.rows)
    ensures Rebuild(before, db, crypto) == Rebuild(before, db', crypto)
  {
    hide Distinct, Sole, Unblank, Top, Load, Rebuild, SameMembers;
    forall key, a, b | Top(a, db, crypto, key) && Top(b, db, crypto, key)
      ensures Load(a, crypto) == Load(b, crypto)
    {
      OneTop(db, crypto, key, a, b);
    }
    TopsDecideAll(before, db, db', crypto);
  }

  lemma TwoPlainRows(a: LiveRow, b: LiveRow)
    requires !IsWildcard(a.domain) && !IsWildcard(b.domain)
    ensures WildcardsFirst([a, b]) == [a, b]
  {
    assert [a, b][1..] == [b] && [b][1..] == [];
    assert Half([b], false) == [b] && Half([b], true) == [];
  }

  // ------------------------------------------------------------ the resolver

  /** Why a certificate may be presented for a name: some rebuild saw the row and
      a rule that takes it, bound by id or covering the name. */
  ghost predicate Justified<K>(db: Snapshot, crypto: Crypto<K>, served: K, sni: string) {
    exists row <- db.rows, rule <- db.rules ::
      && Load(row, crypto) == Some(served)
      && (|| (&& rule.certId == Some(row.id)
              && (SameDomain(rule.domain, sni) || WildcardKey(Lower(sni)) == Some(Lower(rule.domain))))
          || Covers(row.domain, sni))
  }

  lemma {:induction false} WinnerSource<K>(rows: seq<LiveRow>, rules: seq<Rule>, crypto: Crypto<K>, key: string)
    returns (row: LiveRow, rule: Rule)
    requires Winner(rows, rules, crypto, key).Some?
    ensures row in rows && rule in rules && Lower(rule.domain) == key && Binds(rule, row)
    ensures Load(row, crypto) == Winner(rows, rules, crypto, key)
  {
    var i := WinnerIndex(rows, rules, crypto, key);
    row := rows[i];
    rule :| rule in rules && Lower(rule.domain) == key && Binds(rule, row);
  }

  /** What covers the wildcard one label up also covers the name. */
  lemma CoversThroughWildcard(cert: string, domain: string, sni: string)
    requires WildcardKey(Lower(sni)) == Some(Lower(domain)) && Covers(cert, domain)
    ensures Covers(cert, sni)
  {
    var low := Lower(sni);
    DotLower(sni);
    var dot := FindDot(low).value;
    var wild := "*" + low[dot..];
    assert wild == Lower(domain) && low[dot] == '.';
    assert wild[0] == '*' && wild[1] == '.';
    assert forall c: char :: LowerChar(c) == '*' <==> c == '*';
    assert forall c: char :: LowerChar(c) == '.' <==> c == '.';
    assert IsWildcard(domain) by { assert domain[0] == '*' && domain[1] == '.'; assert domain[..2] == "*."; }
    if !SameDomain(cert, domain) {
      WildcardOfWildcard(cert, domain);
    }
    assert Lower(cert) == wild;
    assert IsWildcard(cert) by { assert cert[0] == '*' && cert[1] == '.'; assert cert[..2] == "*."; }
    LowerSlice(cert, 2);
    LowerSlice(sni, dot + 1);
    assert wild[2..] == low[dot + 1..];
  }

  /** Whatever the resolver presents was put there for that name. */
  lemma ResolverSound<K>(dbs: seq<Snapshot>, crypto: Crypto<K>, sni: string) returns (i: nat)
    requires Resolved(Run(dbs, crypto), Some(sni)).Some?
    ensures i < |dbs| && Justified(dbs[i], crypto, Resolved(Run(dbs, crypto), Some(sni)).value, sni)
  {
    hide Load, Run, SameDomain, Covers;
    var low := Lower(sni);
    var key := if low in Run(dbs, crypto) then low else WildcardKey(low).value;
    var k := RunExact(dbs, crypto, key);
    i := k;
    var db := dbs[i];
    SortedRows(db.rows);
    var row, rule := WinnerSource(WildcardsFirst(db.rows), db.rules, crypto, key);
    assert SameDomain(rule.domain, sni) || WildcardKey(low) == Some(Lower(rule.domain)) by {
      SameDomainDef(rule.domain, sni);
    }
    if rule.certId != Some(row.id) {
      if key == low {
        SameDomainDef(rule.domain, sni);
        CoversUpToCase(row.domain, rule.domain, sni);
      } else {
        CoversThroughWildcard(row.domain, rule.domain, sni);
      }
    }
  }

  lemma SameDomainDef(a: string, b: string)
    ensures SameDomain(a, b) <==> Lower(a) == Lower(b)
  {
  }

  /** Right after a rebuild, every name of an SSL rule that has a loadable
      certificate is answered, with the database's choice. */
  lemma ResolverComplete<K>(before: map<string, K>, db: Snapshot, crypto: Crypto<K>, rule: Rule, row: LiveRow,
      sni: string)
    requires rule in db.rules && row in db.rows && Binds(rule, row) && Load(row, crypto).Some?
    requires SameDomain(sni, rule.domain)
    ensures Resolved(Rebuild(before, db, crypto), Some(sni)).Some?
    ensures Resolved(Rebuild(before, db, crypto), Some(sni)) == Chosen(db, crypto, Lower(rule.domain))
  {
    var key := Lower(rule.domain);
    var sorted := WildcardsFirst(db.rows);
    SortedRows(db.rows);
    var i := WinnerIndex(sorted, db.rules, crypto, key);
    var k :| 0 <= k < |sorted| && sorted[k] == row;
    assert Candidate(row, db.rules, crypto, key);
    OverlayExact(before, Rebuild(before, db, crypto), db, crypto);
    assert Lookup(Rebuild(before, db, crypto), key) == Chosen(db, crypto, key);
  }

  // ---------------------------------------- the same, told of the stored columns

  /** The same letter, or one letter in its two cases. */
  predicate SameLetter(c: char, d: char) {
    || c == d
    || ('A' <= c <= 'Z' && d as int == c as int + 32)
    || ('A' <= d <= 'Z' && c as int == d as int + 32)
  }

  predicate EqualUpToCase(a: string, b: string) {
    |a| == |b| && forall i | 0 <= i < |a| :: SameLetter(a[i], b[i])
  }

  /** The first text is the name, or the name with its first label replaced by a
      star. */
  ghost predicate Names(text: string, name: string) {
    || EqualUpToCase(text, name)
    || exists i | 0 <= i < |name| :: OneLabelUp(text, name, i)
  }

  predicate OneLabelUp(text: string, name: string, i: nat)
    requires i < |name|
  {
    name[i] == '.' && '.' !in name[..i] && EqualUpToCase(text, "*" + name[i..])
  }

  /** The rule names the certificate, or leaves the choice open and is covered. */
  ghost predicate Takes(rule: Rule, row: LiveRow) {
    || rule.certId == Some(row.id)
    || ((rule.certId == None || rule.certId == Some("")) && Names(row.domain, rule.domain))
  }

  /** A certificate that the row's certificate and its decrypted key make. */
  ghost predicate Made<K>(row: LiveRow, crypto: Crypto<K>, made: K) {
    exists key :: crypto.decrypt(row.keyPem) == Some(key) && crypto.parse(row.certPem, key) == Some(made)
  }

  lemma SameDomainMeans(a: string, b: string)
    ensures SameDomain(a, b) <==> EqualUpToCase(a, b)
  {
    forall c: char, d: char ensures LowerChar(c) == LowerChar(d) <==> SameLetter(c, d) {
    }
    hide LowerChar, SameLetter;
    if Lower(a) == Lower(b) {
      assert forall i | 0 <= i < |a| :: Lower(a)[i] == Lower(b)[i];
    }
  }

  /** The wildcard of a name, as the code compares it and as text. */
  lemma WildcardMeans(cert: string, name: string, i: nat)
    requires i < |name| && name[i] == '.'
    ensures EqualUpToCase(cert, "*" + name[i..]) <==> IsWildcard(cert) && SameDomain(cert[2..], name[i + 1..])
  {
    var wild := "*" + name[i..];
    assert wild[0] == '*' && wild[1] == '.' && wild[2..] == name[i + 1..];
    assert forall c: char :: SameLetter(c, '*') <==> c == '*';
    assert forall c: char :: SameLetter(c, '.') <==> c == '.';
    assert EqualUpToCase(cert, wild) ==> SameLetter(cert[0], wild[0]) && SameLetter(cert[1], wild[1]);
    if IsWildcard(cert) {
      assert cert[0] == '*' && cert[1] == '.';
      SameDomainMeans(cert[2..], wild[2..]);
      assert forall k | 2 <= k < |cert| :: cert[k] == cert[2..][k - 2];
      assert forall k | 2 <= k < |wild| :: wild[k] == wild[2..][k - 2];
    }
  }

  lemma FirstDot(name: string, i: nat, k: nat)
    requires i < |name| && k < |name| && name[k] == '.' && '.' !in name[..i]
    ensures i <= k
  {
    var before := name[..i];
    assert forall m | 0 <= m < |before| :: before[m] == name[m];
  }

  /** Coverage as the code decides it is coverage as the names say it. */
  lemma CoversMeans(cert: string, name: string)
    ensures Covers(cert, name) <==> Names(cert, name)
  {
    SameDomainMeans(cert, name);
    hide SameDomain, EqualUpToCase;
    var dot := FindDot(name);
    if dot.Some? {
      WildcardMeans(cert, name, dot.value);
      assert OneLabelUp(cert, name, dot.value) <==> EqualUpToCase(cert, "*" + name[dot.value..]);
      forall i | 0 <= i < |name| && name[i] == '.' && '.' !in name[..i] ensures i == dot.value {
        FirstDot(name, i, dot.value);
      }
    }
  }

  lemma TakesExactly(rule: Rule, row: LiveRow)
    ensures Binds(rule, row) <==> Takes(rule, row)
  {
    CoversMeans(row.domain, rule.domain);
  }

  lemma LoadMakes<K>(row: LiveRow, crypto: Crypto<K>, made: K)
    ensures Load(row, crypto) == Some(made) <==> Made(row, crypto, made)
  {
  }

  /** The key of the fallback is the name with its first label replaced by a star,
      in lower case. */
  lemma FallbackMeans(rule: string, sni: string)
    ensures Names(rule, sni) <==> Lower(rule) == Lower(sni) || WildcardKey(Lower(sni)) == Some(Lower(rule))
  {
    CoversMeans(rule, sni);
    var low := Lower(sni);
    DotLower(sni);
    var dot := FindDot(sni);
    if dot.Some? {
      WildcardMeans(rule, sni, dot.value);
      SameDomainMeans(rule, "*" + sni[dot.value..]);
      LowerSlice(sni, dot.value);
      assert Lower("*" + sni[dot.value..]) == "*" + low[dot.value..];
    }
  }

  /** Right after a rebuild every name of an SSL rule is answered, if the rule takes
      a row whose key decrypts and whose certificate then parses. */
  lemma LoadableIsServed<K>(before: map<string, K>, db: Snapshot, crypto: Crypto<K>, rule: Rule, row: LiveRow,
      made: K, sni: string)
    requires rule in db.rules && row in db.rows && Takes(rule, row) && Made(row, crypto, made)
    requires Names(rule.domain, sni)
    ensures Resolved(Rebuild(before, db, crypto), Some(sni)).Some?
  {
    hide Takes, Made, Names, Rebuild, Chosen, Load;
    TakesExactly(rule, row);
    LoadMakes(row, crypto, made);
    ResolverComplete(before, db, crypto, rule, row, rule.domain);
    FallbackMeans(rule.domain, sni);
  }

  /** Whatever is answered after any run of rebuilds is what the certificate and the
      decrypted key of a row make that one of them saw, with a rule that took the
      row and names the server asked for. */
  lemma ServedIsStored<K>(dbs: seq<Snapshot>, crypto: Crypto<K>, sni: string)
    returns (i: nat, rule: Rule, row: LiveRow)
    requires Resolved(Run(dbs, crypto), Some(sni)).Some?
    ensures i < |dbs| && rule in dbs[i].rules && row in dbs[i].rows && Takes(rule, row) && Names(rule.domain, sni)
    ensures Made(row, crypto, Resolved(Run(dbs, crypto), Some(sni)).value)
  {
    hide Takes, Made, Names, Load, Run, Binds, Chosen;
    var low := Lower(sni);
    var key := if low in Run(dbs, crypto) then low else WildcardKey(low).value;
    var last := RunExact(dbs, crypto, key);
    i := last;
    row, rule := ChosenSource(dbs[i], crypto, key);
    TakesExactly(rule, row);
    LoadMakes(row, crypto, Resolved(Run(dbs, crypto), Some(sni)).value);
    FallbackMeans(rule.domain, sni);
  }

  lemma ChosenSource<K>(db: Snapshot, crypto: Crypto<K>, key: string) returns (row: LiveRow, rule: Rule)
    requires Chosen(db, crypto, key).Some?
    ensures row in db.rows && rule in db.rules && Lower(rule.domain) == key && Binds(rule, row)
    ensures Load(row, crypto) == Chosen(db, crypto, key)
  {
    SortedRows(db.rows);
    row, rule := WinnerSource(WildcardsFirst(db.rows), db.rules, crypto, key);
  }

  lemma {:induction false} HalfSplit(xs: seq<LiveRow>, ys: seq<LiveRow>, wild: bool)
    ensures Half(xs + ys, wild) == Half(xs, wild) + Half(ys, wild)
  {
    if ys == [] {
      assert xs + ys == xs;
    } else {
      hide Half, IsWildcard;
      var init, last := ys[..|ys| - 1], ys[|ys| - 1];
      assert init + [last] == ys && xs + init + [last] == xs + ys;
      HalfSplit(xs, init, wild);
      HalfSnoc(init, last, wild);
      HalfSnoc(xs + init, last, wild);
    }
  }

  /** Rows that do not load make no difference to who wins. */
  lemma {:induction false} WinnerSkips<K>(xs: seq<LiveRow>, row: LiveRow, ys: seq<LiveRow>, rules: seq<Rule>,
      crypto: Crypto<K>, key: string)
    requires Load(row, crypto).None?
    ensures Winner(xs + [row] + ys, rules, crypto, key) == Winner(xs + ys, rules, crypto, key)
  {
    hide Load, Serves;
    if ys == [] {
      assert xs + [row] + ys == xs + [row] && xs + ys == xs && (xs + [row])[..|xs|] == xs;
    } else {
      var init := ys[..|ys| - 1];
      WinnerSkips(xs, row, init, rules, crypto, key);
      var with, without := xs + [row] + ys, xs + ys;
      assert with[..|with| - 1] == xs + [row] + init && without[..|without| - 1] == xs + init;
      assert with[|with| - 1] == without[|without| - 1] == ys[|ys| - 1];
    }
  }

  /** A row whose key does not decrypt, or whose certificate does not parse with it,
      is as good as absent: it is never served, and never hides another. */
  lemma UnloadableIgnored<K>(before: map<string, K>, xs: seq<LiveRow>, row: LiveRow, ys: seq<LiveRow>,
      rules: seq<Rule>, crypto: Crypto<K>)
    requires forall key :: crypto.decrypt(row.keyPem) == Some(key) ==> crypto.parse(row.certPem, key) == None
    ensures Rebuild(before, Snapshot(xs + [row] + ys, rules), crypto) ==
              Rebuild(before, Snapshot(xs + ys, rules), crypto)
  {
    var with, without := Snapshot(xs + [row] + ys, rules), Snapshot(xs + ys, rules);
    forall key ensures Chosen(with, crypto, key) == Chosen(without, crypto, key) {
      UnloadableNotChosen(xs, row, ys, rules, crypto, key);
    }
    var built := Rebuild(before, with, crypto);
    OverlayExact(before, built, with, crypto);
    OverlayExact(before, built, without, crypto);
  }

  lemma UnloadableNotChosen<K>(xs: seq<LiveRow>, row: LiveRow, ys: seq<LiveRow>, rules: seq<Rule>, crypto: Crypto<K>,
      key: string)
    requires Load(row, crypto).None?
    ensures Chosen(Snapshot(xs + [row] + ys, rules), crypto, key) == Chosen(Snapshot(xs + ys, rules), crypto, key)
  {
    hide Load, Winner, IsWildcard, Half;
    HalvesAround(xs, row, ys, true);
    HalvesAround(xs, row, ys, false);
    var xw, yw, xn, yn := Half(xs, true), Half(ys, true), Half(xs, false), Half(ys, false);
    var with, without := WildcardsFirst(xs + [row] + ys), WildcardsFirst(xs + ys);
    if IsWildcard(row.domain) {
      assert with == xw + [row] + (yw + (xn + yn)) && without == xw + (yw + (xn + yn));
      WinnerSkips(xw, row, yw + (xn + yn), rules, crypto, key);
    } else {
      assert with == (xw + yw + xn) + [row] + yn && without == (xw + yw + xn) + yn;
      WinnerSkips(xw + yw + xn, row, yn, rules, crypto, key);
    }
  }

  lemma HalvesAround(xs: seq<LiveRow>, row: LiveRow, ys: seq<LiveRow>, wild: bool)
    ensures Half(xs + ys, wild) == Half(xs, wild) + Half(ys, wild)
    ensures Half(xs + [row] + ys, wild) ==
              Half(xs, wild) + (if IsWildcard(row.domain) == wild then [row] else []) + Half(ys, wild)
  {
    hide IsWildcard, Half;
    HalfSplit(xs, ys, wild);
    HalfSplit(xs + [row], ys, wild);
    HalfSnoc(xs, row, wild);
  }

  /** The resolver looks for the lower-cased name, then for its wildcard, the first
      label replaced by a star; a name without a dot has none. */
  lemma ResolvedExactly<K>(cache: map<string, K>, first: string, rest: string)
    requires '.' !in first
    ensures Resolved(cache, None) == None
    ensures Resolved(cache, Some(first)) == Lookup(cache, Lower(first))
    ensures Resolved(cache, Some(first + "." + rest)) ==
              if Lower(first + "." + rest) in cache then Some(cache[Lower(first + "." + rest)])
              else Lookup(cache, "*." + Lower(rest))
  {
    hide Lower, FindDot;
    WildcardKeyMeans(first, rest);
  }

  lemma WildcardKeyMeans(first: string, rest: string)
    requires '.' !in first
    ensures WildcardKey(Lower(first)) == None
    ensures WildcardKey(Lower(first + "." + rest)) == Some("*." + Lower(rest))
  {
    hide Lower, FindDot;
    var sni := first + "." + rest;
    DotLower(first);
    DotLower(sni);
    DotAfter(first, rest);
    LowerTail(first, rest);
  }

  lemma LowerTail(first: string, rest: string)
    ensures "*" + Lower(first + "." + rest)[|first|..] == "*." + Lower(rest)
  {
    hide Lower;
    var low := Lower(first + "." + rest);
    assert forall i | 0 <= i < |rest| :: low[|first| + 1 + i] == LowerChar(rest[i]);
    assert low[|first|] == LowerChar('.');
  }

  lemma DotAfter(first: string, rest: string)
    requires '.' !in first
    ensures FindDot(first) == None && FindDot(first + "." + rest) == Some(|first|)
  {
    var sni := first + "." + rest;
    assert sni[|first|] == '.' && forall k | 0 <= k < |first| :: sni[k] == first[k];
  }
}
