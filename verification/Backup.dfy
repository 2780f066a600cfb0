/**
  Exporting the configuration to a backup and importing a backup, over the four
  tables involved: upsert by id for port groups and settings, INSERT OR REPLACE
  under two unique columns for certificates, delete-all-then-insert for rules.

  Key encryption is a parameter. Import runs in one transaction.
*/
module Backup {
  import opened Common

  // ------------------------------------------------------------------ tables

  datatype GroupRow = GroupRow(name: string, listenPort: int, enabled: int, skipTls: int, forceHttps: int)

  datatype CertRow = CertRow(
    domain: string, certPem: string, keyPem: string, expiresAt: string, autoRenew: int, source: string)

  datatype RuleConfig = RuleConfig(groupId: Option<string>, name: string, domain: string, targetUrl: string,
                                   ruleType: string, redirectCode: Option<int>, certId: Option<string>,
                                   ssl: int, forceHttps: int, enabled: int)

  /** A rule row is its configuration plus the column of the health monitor. */
  datatype RuleRow = RuleRow(config: RuleConfig, status: string)

  datatype Db = Db(groups: map<string, GroupRow>, certs: map<string, CertRow>,
                   rules: map<string, RuleRow>, settings: map<string, string>)

  /** The UNIQUE constraint on certificates.domain. */
  ghost predicate UniqueDomains(certs: map<string, CertRow>) {
    forall a <- certs, b <- certs :: certs[a].domain == certs[b].domain ==> a == b
  }

  function Configs(rules: map<string, RuleRow>): map<string, RuleConfig> {
    map id | id in rules :: rules[id].config
  }

  // -------------------------------------------------------------- encryption

  datatype Crypto = Crypto(encrypt: (string, string, nat) -> string, decrypt: (string, string) -> Option<string>)

  ghost predicate Sound(crypto: Crypto) {
    forall plain, secret, nonce :: crypto.decrypt(crypto.encrypt(plain, secret, nonce), secret) == Some(plain)
  }

  function Setting(settings: map<string, string>, key: string): string {
    if key in settings then settings[key] else ""
  }

  function Secret(db: Db): string {
    Setting(db.settings, "jwt_secret")
  }

  /** Reading a stored key: as it is when there is no secret or it does not
      decrypt, decrypted otherwise. */
  function PlainKey(stored: string, secret: string, crypto: Crypto): string {
    if secret == "" then stored
    else
      var plain := crypto.decrypt(stored, secret);
      if plain.Some? then plain.value else stored
  }

  // ------------------------------------------------------------- backup file

  /** JSON entries: None where the field is missing or has another type. */
  datatype GroupEntry = GroupEntry(id: Option<string>, name: Option<string>, listenPort: Option<int>,
                                   enabled: Option<int>, skipTls: Option<int>, forceHttps: Option<int>)

  datatype CertEntry = CertEntry(
    id: Option<string>, domain: Option<string>, certPem: Option<string>, keyPem: Option<string>,
    expiresAt: Option<string>, autoRenew: Option<int>, source: Option<string>)

  datatype RuleEntry = RuleEntry(
    id: Option<string>, groupId: Option<string>, name: Option<string>, domain: Option<string>,
    targetUrl: Option<string>, ruleType: Option<string>, redirectCode: Option<int>,
    certId: Option<string>, ssl: Option<int>, forceHttps: Option<int>, enabled: Option<int>)

  datatype SettingEntry = SettingEntry(key: Option<string>, val: Option<string>)

  datatype File = File(groups: Option<seq<GroupEntry>>, certs: Option<seq<CertEntry>>,
                       rules: Option<seq<RuleEntry>>, settings: Option<seq<SettingEntry>>)

  // ------------------------------------------------------------------ export

  /** The rows of a table in the order a SELECT happens to return them. */
  ghost predicate Lists<V>(rows: seq<(string, V)>, table: map<string, V>) {
    && (forall i, j | 0 <= i < j < |rows| :: rows[i].0 != rows[j].0)
    && (forall r <- rows :: r.0 in table && table[r.0] == r.1)
    && (forall k <- table :: (k, table[k]) in rows)
  }

  datatype Rows = Rows(groups: seq<(string, GroupRow)>, certs: seq<(string, CertRow)>,
                       rules: seq<(string, RuleRow)>, settings: seq<(string, string)>)

  ghost predicate ListsDb(rows: Rows, db: Db) {
    && Lists(rows.groups, db.groups) && Lists(rows.certs, db.certs)
    && Lists(rows.rules, db.rules) && Lists(rows.settings, db.settings)
  }

  predicate Sensitive(key: string) {
    "jwt_secret" <= key || "ddns_cf_token" <= key || "acme_account_key" <= key || "acme_challenge_" <= key
  }

  function ExportGroup(r: (string, GroupRow)): Option<GroupEntry> {
    Some(GroupEntry(Some(r.0), Some(r.1.name), Some(r.1.listenPort), Some(r.1.enabled), Some(r.1.skipTls),
        Some(r.1.forceHttps)))
  }

  function ExportCert(r: (string, CertRow), secret: string, crypto: Crypto): Option<CertEntry> {
    Some(CertEntry(Some(r.0), Some(r.1.domain), Some(r.1.certPem), Some(PlainKey(r.1.keyPem, secret, crypto)),
                   Some(r.1.expiresAt), Some(r.1.autoRenew), Some(r.1.source)))
  }

  function ExportRule(r: (string, RuleRow)): Option<RuleEntry> {
    var c := r.1.config;
    Some(RuleEntry(Some(r.0), c.groupId, Some(c.name), Some(c.domain), Some(c.targetUrl), Some(c.ruleType),
                   c.redirectCode, c.certId, Some(c.ssl), Some(c.forceHttps), Some(c.enabled)))
  }

  function ExportSetting(r: (string, string)): Option<SettingEntry> {
    if Sensitive(r.0) then None else Some(SettingEntry(Some(r.0), Some(r.1)))
  }

  function FilterMap<A, B>(f: A -> Option<B>, s: seq<A>): seq<B> {
    if s == [] then []
    else (if f(s[0]).Some? then [f(s[0]).value] else []) + FilterMap(f, s[1..])
  }

  function Export(rows: Rows, secret: string, crypto: Crypto): File {
    File(Some(FilterMap(ExportGroup, rows.groups)),
         Some(FilterMap((r: (string, CertRow)) => ExportCert(r, secret, crypto), rows.certs)),
         Some(FilterMap(ExportRule, rows.rules)),
         Some(FilterMap(ExportSetting, rows.settings)))
  }

  // ------------------------------------------------------------------ import

  function Or<T>(o: Option<T>, otherwise: T): T {
    if o.Some? then o.value else otherwise
  }

  function AcceptGroup(e: GroupEntry): Option<(string, GroupRow)> {
    if Or(e.id, "") == "" || Or(e.name, "") == "" then None
    else Some((e.id.value, GroupRow(e.name.value, Or(e.listenPort, 8443), Or(e.enabled, 0), Or(e.skipTls, 0),
        Or(e.forceHttps, 0))))
  }

  /** An accepted certificate still carries its key in the clear. */
  function AcceptCert(e: CertEntry): Option<(string, CertRow)> {
    if Or(e.id, "") == "" || Or(e.domain, "") == "" || Or(e.certPem, "") == "" || Or(e.keyPem, "") == "" then None
    else Some((e.id.value, CertRow(e.domain.value, e.certPem.value, e.keyPem.value, Or(e.expiresAt, ""),
        Or(e.autoRenew, 1), Or(e.source, "acme"))))
  }

  function AcceptRule(e: RuleEntry): Option<(string, RuleRow)> {
    if Or(e.name, "") == "" || Or(e.domain, "") == "" || Or(e.targetUrl, "") == "" || Or(e.id, "") == "" then None
    else Some((e.id.value,
               RuleRow(RuleConfig(e.groupId, e.name.value, e.domain.value, e.targetUrl.value, Or(e.ruleType, "proxy"),
                                  e.redirectCode, e.certId, Or(e.ssl, 0), Or(e.forceHttps, 0), Or(e.enabled, 1)),
                                      "unknown")))
  }

  predicate Protected(key: string) {
    || key == "acme_account_key" || key == "setup_complete" || key == "jwt_secret"
    || key == "ddns_cf_token" || key == "ddns_aliyun_access_key_secret" || "acme_challenge_" <= key
  }

  function AcceptSetting(e: SettingEntry): Option<(string, string)> {
    if Or(e.key, "") == "" || Protected(e.key.value) then None else Some((e.key.value, Or(e.val, "")))
  }

  function Upsert<V>(table: map<string, V>, rows: seq<(string, V)>): map<string, V> {
    if rows == [] then table
    else
      var n := |rows| - 1;
      Upsert(table, rows[..n])[rows[n].0 := rows[n].1]
  }

  /** INSERT OR REPLACE under PRIMARY KEY (id) and UNIQUE (domain). */
  function Replace(certs: map<string, CertRow>, id: string, row: CertRow): map<string, CertRow> {
    (map k | k in certs && certs[k].domain != row.domain :: certs[k])[id := row]
  }

  function ReplaceAll(certs: map<string, CertRow>, rows: seq<(string, CertRow)>, secret: string,
      crypto: Crypto): map<string, CertRow> {
    if rows == [] then certs
    else
      var n := |rows| - 1;
      var (id, row) := rows[n];
      Replace(ReplaceAll(certs, rows[..n], secret, crypto), id, row.(keyPem := crypto.encrypt(row.keyPem, secret, n)))
  }

  predicate DistinctIds<V>(rows: seq<(string, V)>) {
    forall i, j | 0 <= i < j < |rows| :: rows[i].0 != rows[j].0
  }

  datatype ImportError = EmptyBackup | NoSecret | DuplicateRule

  function Groups(f: File): seq<(string, GroupRow)> { FilterMap(AcceptGroup, Or(f.groups, [])) }
  function Certs(f: File): seq<(string, CertRow)> { FilterMap(AcceptCert, Or(f.certs, [])) }
  function Rules(f: File): seq<(string, RuleRow)> { FilterMap(AcceptRule, Or(f.rules, [])) }
  function Settings(f: File): seq<(string, string)> { FilterMap(AcceptSetting, Or(f.settings, [])) }

  predicate Blank(f: File) {
    f.groups.None? && f.certs.None? && f.rules.None? && f.settings.None?
  }

  /** The whole import as one step: every table, or an error and nothing. */
  function Imported(db: Db, f: File, crypto: Crypto): Result<Db, ImportError> {
    if Blank(f) then Err(EmptyBackup)
    else if Certs(f) != [] && Secret(db) == "" then Err(NoSecret)
    else if !DistinctIds(Rules(f)) then Err(DuplicateRule)
    else Ok(Db(Upsert(db.groups, Groups(f)),
               ReplaceAll(db.certs, Certs(f), Secret(db), crypto),
               if f.rules.Some? then Upsert(map[], Rules(f)) else db.rules,
               Upsert(db.settings, Settings(f))))
  }

  lemma {:induction false} FilterMapSnoc<A, B>(f: A -> Option<B>, s: seq<A>, x: A)
    ensures FilterMap(f, s + [x]) == if f(x).Some? then FilterMap(f, s) + [f(x).value] else FilterMap(f, s)
  {
    if s == [] {
      assert s + [x] == [x] && FilterMap(f, [x][1..]) == [];
    } else {
      assert (s + [x])[1..] == s[1..] + [x];
      FilterMapSnoc(f, s[1..], x);
      var head := if f(s[0]).Some? then [f(s[0]).value] else [];
      assert FilterMap(f, s + [x]) == head + FilterMap(f, s[1..] + [x]);
      if f(x).Some? {
        assert head + (FilterMap(f, s[1..]) + [f(x).value]) == (head + FilterMap(f, s[1..])) + [f(x).value];
      }
    }
  }

  lemma UpsertSnoc<V>(table: map<string, V>, rows: seq<(string, V)>, r: (string, V))
    ensures Upsert(table, rows + [r]) == Upsert(table, rows)[r.0 := r.1]
  {
    assert (rows + [r])[..|rows|] == rows;
  }

  class Database {
    var groups: map<string, GroupRow>
    var certs: map<string, CertRow>
    var rules: map<string, RuleRow>
    var settings: map<string, string>

    function Contents(): Db
      reads this
    {
      Db(groups, certs, rules, settings)
    }

    constructor (db: Db)
      ensures Contents() == db
    {
      groups, certs, rules, settings := db.groups, db.certs, db.rules, db.settings;
    }

    method ImportGroups(entries: seq<GroupEntry>) returns (n: nat)
      modifies this`groups
      ensures groups == Upsert(old(groups), FilterMap(AcceptGroup, entries)) && n == |FilterMap(AcceptGroup, entries)|
    {
      n := 0;
      assert entries[..0] == [];
      for i := 0 to |entries|
        invariant groups == Upsert(old(groups), FilterMap(AcceptGroup, entries[..i]))
            && n == |FilterMap(AcceptGroup, entries[..i])|
      {
        assert entries[..i + 1] == entries[..i] + [entries[i]];
        FilterMapSnoc(AcceptGroup, entries[..i], entries[i]);
        var row := AcceptGroup(entries[i]);
        if row.Some? {
          UpsertSnoc(old(groups), FilterMap(AcceptGroup, entries[..i]), row.value);
          groups := groups[row.value.0 := row.value.1];
          n := n + 1;
        }
      }
      assert entries[..|entries|] == entries;
    }

    /** Fails when a key has to be encrypted and there is no secret yet. */
    method ImportCerts(entries: seq<CertEntry>, crypto: Crypto) returns (n: Option<nat>)
      modifies this`certs
      ensures n.None? <==> FilterMap(AcceptCert, entries) != [] && Setting(settings, "jwt_secret") == ""
      ensures n.Some? ==> n.value == |FilterMap(AcceptCert, entries)|
                          && certs == ReplaceAll(old(certs), FilterMap(AcceptCert, entries),
                              Setting(settings, "jwt_secret"), crypto)
    {
      hide FilterMap, ReplaceAll, Replace, AcceptCert;
      var count := 0;
      ghost var rows: seq<(string, CertRow)> := [];
      NothingAccepted(certs, Setting(settings, "jwt_secret"), crypto);
      assert entries[..0] == [];
      for i := 0 to |entries|
        invariant rows == FilterMap(AcceptCert, entries[..i]) && count == |rows|
        invariant count > 0 ==> Setting(settings, "jwt_secret") != ""
        invariant certs == ReplaceAll(old(certs), rows, Setting(settings, "jwt_secret"), crypto)
      {
        assert entries[..i + 1] == entries[..i] + [entries[i]];
        FilterMapSnoc(AcceptCert, entries[..i], entries[i]);
        var accepted := AcceptCert(entries[i]);
        if accepted.Some? {
          var (id, row) := accepted.value;
          var secret := Setting(settings, "jwt_secret");
          if secret == "" {
            AcceptedSomewhere(entries, i);
            return None;
          }
          var encrypted := crypto.encrypt(row.keyPem, secret, count);
          ReplaceAllSnoc(old(certs), rows, accepted.value, secret, crypto);
          certs := Replace(certs, id, row.(keyPem := encrypted));
          count := count + 1;
          rows := rows + [accepted.value];
        }
      }
      assert entries[..|entries|] == entries;
      return Some(count);
    }

    /** Clears the table, then inserts; a repeated id breaks the primary key. */
    method ImportRules(entries: seq<RuleEntry>) returns (n: Option<nat>)
      modifies this`rules
      ensures n.Some? <==> DistinctIds(FilterMap(AcceptRule, entries))
      ensures n.Some? ==> n.value == |FilterMap(AcceptRule, entries)|
      ensures n.Some? ==> rules == Upsert(map[], FilterMap(AcceptRule, entries))
    {
      rules := map[];
      var count := 0;
      ghost var rows: seq<(string, RuleRow)> := [];
      assert entries[..0] == [];
      for i := 0 to |entries|
        invariant rows == FilterMap(AcceptRule, entries[..i])
        invariant count == |rows| && DistinctIds(rows) && rules == Upsert(map[], rows)
      {
        assert entries[..i + 1] == entries[..i] + [entries[i]];
        FilterMapSnoc(AcceptRule, entries[..i], entries[i]);
        var row := AcceptRule(entries[i]);
        if row.Some? {
          if row.value.0 in rules {
            RepeatedRule(entries, i);
            return None;
          }
          InsertRule(rows, row.value);
          rules := rules[row.value.0 := row.value.1];
          rows := rows + [row.value];
          count := count + 1;
        }
      }
      assert entries[..|entries|] == entries;
      return Some(count);
    }

    method ImportSettings(entries: seq<SettingEntry>) returns (n: nat)
      modifies this`settings
      ensures settings == Upsert(old(settings), FilterMap(AcceptSetting, entries))
          && n == |FilterMap(AcceptSetting, entries)|
    {
      n := 0;
      assert entries[..0] == [];
      for i := 0 to |entries|
        invariant settings == Upsert(old(settings), FilterMap(AcceptSetting, entries[..i]))
            && n == |FilterMap(AcceptSetting, entries[..i])|
      {
        assert entries[..i + 1] == entries[..i] + [entries[i]];
        FilterMapSnoc(AcceptSetting, entries[..i], entries[i]);
        var row := AcceptSetting(entries[i]);
        if row.Some? {
          UpsertSnoc(old(settings), FilterMap(AcceptSetting, entries[..i]), row.value);
          settings := settings[row.value.0 := row.value.1];
          n := n + 1;
        }
      }
      assert entries[..|entries|] == entries;
    }

    /** Table by table inside a transaction: all of it, or the tables as before. */
    method Import(f: File, crypto: Crypto) returns (r: Result<(nat, nat, nat, nat), ImportError>)
      modifies this
      ensures r.Ok? <==> Imported(old(Contents()), f, crypto).Ok?
      ensures r.Ok? ==> Contents() == Imported(old(Contents()), f, crypto).value
                        && r.value == (|Groups(f)|, |Certs(f)|, |Rules(f)|, |Settings(f)|)
      ensures r.Err? ==> Contents() == old(Contents()) && Imported(old(Contents()), f, crypto) == Err(r.error)
    {
      if f.rules.None? && f.groups.None? && f.certs.None? && f.settings.None? { return Err(EmptyBackup); }
      var saved := Contents();
      var g := ImportGroups(Or(f.groups, []));
      var c := ImportCerts(Or(f.certs, []), crypto);
      if c.None? {
        groups, certs, rules, settings := saved.groups, saved.certs, saved.rules, saved.settings;
        return Err(NoSecret);
      }
      var n := 0;
      if f.rules.Some? {
        var m := ImportRules(f.rules.value);
        if m.None? {
          groups, certs, rules, settings := saved.groups, saved.certs, saved.rules, saved.settings;
          return Err(DuplicateRule);
        }
        n := m.value;
      }
      var s := ImportSettings(Or(f.settings, []));
      return Ok((g, c.value, n, s));
    }
  }

  lemma NothingAccepted(certs: map<string, CertRow>, secret: string, crypto: Crypto)
    ensures FilterMap(AcceptCert, []) == [] && ReplaceAll(certs, [], secret, crypto) == certs
  {
  }

  lemma ReplaceAllSnoc(certs: map<string, CertRow>, rows: seq<(string, CertRow)>, r: (string, CertRow),
      secret: string, crypto: Crypto)
    ensures ReplaceAll(certs, rows + [r], secret, crypto) ==
            Replace(ReplaceAll(certs, rows, secret, crypto), r.0,
                r.1.(keyPem := crypto.encrypt(r.1.keyPem, secret, |rows|)))
  {
    assert (rows + [r])[..|rows|] == rows;
  }

  lemma {:induction false} FilterMapAppend<A, B>(f: A -> Option<B>, s: seq<A>, t: seq<A>)
    ensures FilterMap(f, s + t) == FilterMap(f, s) + FilterMap(f, t)
  {
    if s == [] {
      assert s + t == t;
    } else {
      assert (s + t)[1..] == s[1..] + t;
      FilterMapAppend(f, s[1..], t);
      var head := if f(s[0]).Some? then [f(s[0]).value] else [];
      assert head + (FilterMap(f, s[1..]) + FilterMap(f, t)) == (head + FilterMap(f, s[1..])) + FilterMap(f, t);
    }
  }

  lemma AcceptedSomewhere(entries: seq<CertEntry>, i: nat)
    requires i < |entries| && AcceptCert(entries[i]).Some?
    ensures FilterMap(AcceptCert, entries) != []
  {
    assert entries == entries[..i] + entries[i..];
    FilterMapAppend(AcceptCert, entries[..i], entries[i..]);
  }

  lemma InsertRule(rows: seq<(string, RuleRow)>, r: (string, RuleRow))
    requires DistinctIds(rows) && r.0 !in Upsert(map[], rows)
    ensures DistinctIds(rows + [r]) && Upsert(map[], rows + [r]) == Upsert(map[], rows)[r.0 := r.1]
  {
    UpsertKeys(map[], rows);
    UpsertSnoc(map[], rows, r);
    assert forall i | 0 <= i < |rows| :: rows[i] in rows;
  }

  lemma RepeatedRule(entries: seq<RuleEntry>, i: nat)
    requires i < |entries| && AcceptRule(entries[i]).Some?
    requires AcceptRule(entries[i]).value.0 in Upsert(map[], FilterMap(AcceptRule, entries[..i]))
    ensures !DistinctIds(FilterMap(AcceptRule, entries))
  {
    hide AcceptRule, Upsert;
    var before := FilterMap(AcceptRule, entries[..i]);
    UpsertKeys(map[], before);
    var r :| r in before && r.0 == AcceptRule(entries[i]).value.0;
    var k :| 0 <= k < |before| && before[k] == r;
    assert entries == entries[..i] + entries[i..];
    FilterMapAppend(AcceptRule, entries[..i], entries[i..]);
    var all := FilterMap(AcceptRule, entries);
    assert all[k] == r && all[|before|] == AcceptRule(entries[i]).value;
  }

  // -------------------------------------------------- facts about the tables

  lemma {:induction false} UpsertKeys<V>(table: map<string, V>, rows: seq<(string, V)>)
    ensures forall k :: k in Upsert(table, rows) <==> k in table || exists r <- rows :: r.0 == k
    ensures forall k <- Upsert(table, rows) ::
              (k, Upsert(table, rows)[k]) in rows || (k in table && table[k] == Upsert(table, rows)[k])
  {
    if rows != [] {
      var n := |rows| - 1;
      assert rows == rows[..n] + [rows[n]];
      UpsertKeys(table, rows[..n]);
    }
  }

  /** With distinct ids every row given is there afterwards. */
  lemma {:induction false} UpsertHas<V>(table: map<string, V>, rows: seq<(string, V)>, r: (string, V))
    requires DistinctIds(rows) && r in rows
    ensures r.0 in Upsert(table, rows) && Upsert(table, rows)[r.0] == r.1
  {
    var n := |rows| - 1;
    assert rows == rows[..n] + [rows[n]];
    if r != rows[n] {
      assert r in rows[..n];
      UpsertHas(table, rows[..n], r);
    }
  }

  lemma {:induction false} UpsertOwnRows<V>(table: map<string, V>, rows: seq<(string, V)>)
    requires forall r <- rows :: r.0 in table && table[r.0] == r.1
    ensures Upsert(table, rows) == table
  {
    if rows != [] {
      var n := |rows| - 1;
      assert rows[n] in rows;
      assert forall r <- rows[..n] :: r in rows;
      UpsertOwnRows(table, rows[..n]);
    }
  }

  lemma {:induction false} ReplaceKeepsUnique(certs: map<string, CertRow>, rows: seq<(string, CertRow)>,
      secret: string, crypto: Crypto)
    requires UniqueDomains(certs)
    ensures UniqueDomains(ReplaceAll(certs, rows, secret, crypto))
  {
    if rows != [] {
      ReplaceKeepsUnique(certs, rows[..|rows| - 1], secret, crypto);
    }
  }

  lemma {:induction false} FilterMapSource<A, B>(f: A -> Option<B>, s: seq<A>, y: B) returns (i: nat)
    requires y in FilterMap(f, s)
    ensures i < |s| && f(s[i]) == Some(y)
  {
    if f(s[0]) == Some(y) {
      i := 0;
    } else {
      i := FilterMapSource(f, s[1..], y);
      i := i + 1;
    }
  }

  // ----------------------------------------------------- any backup whatever

  lemma ProtectedStays(rows: seq<SettingEntry>, settings: map<string, string>, key: string)
    requires Protected(key)
    ensures Setting(Upsert(settings, FilterMap(AcceptSetting, rows)), key) == Setting(settings, key)
    ensures key in Upsert(settings, FilterMap(AcceptSetting, rows)) <==> key in settings
  {
    var accepted := FilterMap(AcceptSetting, rows);
    UpsertKeys(settings, accepted);
    if r :| r in accepted && r.0 == key {
      var i := FilterMapSource(AcceptSetting, rows, r);
    }
  }

  /** What an import does, whatever the backup holds: the protected settings (the
      secret among them) stay, certificate domains stay unique, and a backup with
      a rules section leaves exactly its accepted rules. */
  lemma ImportIsSafe(db: Db, f: File, crypto: Crypto)
    requires UniqueDomains(db.certs) && Imported(db, f, crypto).Ok?
    ensures var after := Imported(db, f, crypto).value;
            && (forall key | Protected(key) :: Setting(after.settings, key) == Setting(db.settings, key))
            && Secret(after) == Secret(db)
            && UniqueDomains(after.certs)
            && (f.rules.Some? ==> forall id, row :: id in after.rules && after.rules[id] == row <==>
                (id, row) in Rules(f))
            && (f.rules.None? ==> after.rules == db.rules)
  {
    var after := Imported(db, f, crypto).value;
    forall key | Protected(key) ensures Setting(after.settings, key) == Setting(db.settings, key) {
      ProtectedStays(Or(f.settings, []), db.settings, key);
    }
    assert Protected("jwt_secret");
    ReplaceKeepsUnique(db.certs, Certs(f), Secret(db), crypto);
    if f.rules.Some? {
      UpsertKeys(map[], Rules(f));
      forall r <- Rules(f) ensures r.0 in after.rules && after.rules[r.0] == r.1 {
        UpsertHas(map[], Rules(f), r);
      }
    }
  }

  // --------------------------------------------------------------- round trip

  predicate AcceptableCert(id: string, row: CertRow, secret: string, crypto: Crypto) {
    id != "" && row.domain != "" && row.certPem != "" && PlainKey(row.keyPem, secret, crypto) != ""
  }

  predicate AcceptableRule(id: string, c: RuleConfig) {
    id != "" && c.name != "" && c.domain != "" && c.targetUrl != ""
  }

  /** The same certificates, up to re-encryption of their keys. */
  ghost predicate SameCerts(a: map<string, CertRow>, secretA: string, b: map<string, CertRow>, secretB: string,
      crypto: Crypto) {
    && a.Keys == b.Keys
    && forall id <- a :: a[id].(keyPem := "") == b[id].(keyPem := "")
                         && PlainKey(a[id].keyPem, secretA, crypto) == PlainKey(b[id].keyPem, secretB, crypto)
  }

  lemma GroupsComeBack(rows: seq<(string, GroupRow)>, table: map<string, GroupRow>)
    requires Lists(rows, table)
    ensures forall r <- FilterMap(AcceptGroup, FilterMap(ExportGroup, rows)) :: r.0 in table && table[r.0] == r.1
  {
    hide FilterMap;
    var entries := FilterMap(ExportGroup, rows);
    forall r <- FilterMap(AcceptGroup, entries) ensures r.0 in table && table[r.0] == r.1 {
      var i := FilterMapSource(AcceptGroup, entries, r);
      var j := FilterMapSource(ExportGroup, rows, entries[i]);
      assert r == rows[j] && rows[j] in rows;
    }
  }

  lemma SettingsComeBack(rows: seq<(string, string)>, table: map<string, string>)
    requires Lists(rows, table)
    ensures forall r <- FilterMap(AcceptSetting, FilterMap(ExportSetting, rows)) :: r.0 in table && table[r.0] == r.1
  {
    hide FilterMap, Sensitive, Protected;
    var entries := FilterMap(ExportSetting, rows);
    forall r <- FilterMap(AcceptSetting, entries) ensures r.0 in table && table[r.0] == r.1 {
      var i := FilterMapSource(AcceptSetting, entries, r);
      var j := FilterMapSource(ExportSetting, rows, entries[i]);
      assert r == rows[j] && rows[j] in rows;
    }
  }

  /** What is accepted from the exported rules. */
  function RulesBack(rows: seq<(string, RuleRow)>): seq<(string, RuleRow)> {
    FilterMap(AcceptRule, FilterMap(ExportRule, rows))
  }

  lemma RuleSource(rows: seq<(string, RuleRow)>, r: (string, RuleRow)) returns (j: nat)
    requires r in RulesBack(rows)
    ensures j < |rows| && AcceptableRule(rows[j].0, rows[j].1.config)
        && r == (rows[j].0, RuleRow(rows[j].1.config, "unknown"))
  {
    hide FilterMap;
    var entries := FilterMap(ExportRule, rows);
    var i := FilterMapSource(AcceptRule, entries, r);
    j := FilterMapSource(ExportRule, rows, entries[i]);
  }

  lemma RuleKept(rows: seq<(string, RuleRow)>, j: nat)
    requires j < |rows| && AcceptableRule(rows[j].0, rows[j].1.config)
    ensures (rows[j].0, RuleRow(rows[j].1.config, "unknown")) in RulesBack(rows)
  {
    hide FilterMap;
    var entries := FilterMap(ExportRule, rows);
    FilterMapKeeps(ExportRule, rows, j);
    var i :| 0 <= i < |entries| && entries[i] == ExportRule(rows[j]).value;
    FilterMapKeeps(AcceptRule, entries, i);
  }

  lemma RulesStayDistinct(rows: seq<(string, RuleRow)>)
    requires DistinctIds(rows)
    ensures DistinctIds(RulesBack(rows))
  {
    hide FilterMap;
    var entries := FilterMap(ExportRule, rows);
    var back := RulesBack(rows);
    forall i, j | 0 <= i < j < |back| ensures back[i].0 != back[j].0 {
      var k, l := FilterMapPairs(AcceptRule, entries, i, j);
      var m, n := FilterMapPairs(ExportRule, rows, k, l);
      assert back[i].0 == rows[m].0 && back[j].0 == rows[n].0;
    }
  }

  /** Re-importing its own rules leaves a table as it was, configuration-wise,
      exactly when every rule has the fields that import insists on. */
  lemma RulesRoundTrip(rows: seq<(string, RuleRow)>, table: map<string, RuleRow>)
    requires Lists(rows, table)
    ensures DistinctIds(RulesBack(rows))
    ensures Configs(Upsert(map[], RulesBack(rows))) == Configs(table) <==>
              forall id <- table :: AcceptableRule(id, table[id].config)
  {
    hide RulesBack, Upsert, AcceptableRule;
    var back := RulesBack(rows);
    RulesStayDistinct(rows);
    UpsertKeys(map[], back);
    var after := Upsert(map[], back);
    forall id | id in after
      ensures id in table && after[id].config == table[id].config && AcceptableRule(id, table[id].config)
    {
      var j := RuleSource(rows, (id, after[id]));
      assert rows[j] in rows;
    }
    forall id | id in table && AcceptableRule(id, table[id].config)
      ensures id in after
    {
      var j :| 0 <= j < |rows| && rows[j] == (id, table[id]);
      RuleKept(rows, j);
    }
    if Configs(after) == Configs(table) {
      forall id <- table ensures AcceptableRule(id, table[id].config) {
        assert id in Configs(after);
      }
    } else if forall id <- table :: AcceptableRule(id, table[id].config) {
      assert false;
    }
  }

  /** A table whose only rule has no name is empty after its own backup. */
  lemma UnnamedRuleIsLost(id: string, row: RuleRow)
    requires row.config.name == ""
    ensures Upsert(map[], RulesBack([(id, row)])) == map[]
  {
    var rows := [(id, row)];
    var entry := ExportRule(rows[0]).value;
    var none: seq<(string, RuleRow)> := [];
    assert rows[1..] == none;
    assert FilterMap(ExportRule, rows) == [entry] + FilterMap(ExportRule, none) == [entry];
    assert AcceptRule(entry).None? && [entry][1..] == [];
    assert FilterMap(AcceptRule, [entry]) == [] + FilterMap(AcceptRule, [entry][1..]) == [];
  }

  /** Writing back a row under its own id, with its own key re-encrypted. */
  lemma ReplaceOwnRow(certs: map<string, CertRow>, before: map<string, CertRow>, id: string, stored: CertRow,
      secret: string, crypto: Crypto)
    requires UniqueDomains(certs) && SameCerts(certs, secret, before, secret, crypto) && id in certs
    requires stored.(keyPem := "") == certs[id].(keyPem := "")
    requires PlainKey(stored.keyPem, secret, crypto) == PlainKey(certs[id].keyPem, secret, crypto)
    ensures SameCerts(certs, secret, Replace(before, id, stored), secret, crypto)
  {
    hide PlainKey;
    var after := Replace(before, id, stored);
    assert stored.domain == stored.(keyPem := "").domain == certs[id].domain;
    forall k | k in before && k != id ensures k in after && after[k] == before[k] {
      assert before[k].domain == before[k].(keyPem := "").domain == certs[k].(keyPem := "").domain == certs[k].domain;
      assert certs[k].domain != certs[id].domain;
    }
    assert after.Keys == certs.Keys;
  }

  lemma {:induction false} CertsRoundTrip(certs: map<string, CertRow>, rows: seq<(string, CertRow)>, secret: string,
      crypto: Crypto)
    requires Sound(crypto) && secret != "" && UniqueDomains(certs)
    requires forall r <- rows ::
               r.0 in certs && r.1 == certs[r.0].(keyPem := PlainKey(certs[r.0].keyPem, secret, crypto))
    ensures SameCerts(certs, secret, ReplaceAll(certs, rows, secret, crypto), secret, crypto)
  {
    if rows != [] {
      var n := |rows| - 1;
      assert rows[n] in rows && forall r <- rows[..n] :: r in rows;
      CertsRoundTrip(certs, rows[..n], secret, crypto);
      var (id, row) := rows[n];
      var stored := row.(keyPem := crypto.encrypt(row.keyPem, secret, n));
      ReplaceOwnRow(certs, ReplaceAll(certs, rows[..n], secret, crypto), id, stored, secret, crypto);
    }
  }

  /** What is accepted from the exported certificates. */
  function CertsBack(rows: seq<(string, CertRow)>, secret: string, crypto: Crypto): seq<(string, CertRow)> {
    FilterMap(AcceptCert, FilterMap((r: (string, CertRow)) => ExportCert(r, secret, crypto), rows))
  }

  lemma CertSource(rows: seq<(string, CertRow)>, certs: map<string, CertRow>, secret: string, crypto: Crypto,
      r: (string, CertRow))
    requires Lists(rows, certs) && r in CertsBack(rows, secret, crypto)
    ensures r.0 in certs && AcceptableCert(r.0, certs[r.0], secret, crypto)
    ensures r.1 == certs[r.0].(keyPem := PlainKey(certs[r.0].keyPem, secret, crypto))
  {
    hide FilterMap, PlainKey;
    var f := (r: (string, CertRow)) => ExportCert(r, secret, crypto);
    var entries := FilterMap(f, rows);
    var i := FilterMapSource(AcceptCert, entries, r);
    var j := FilterMapSource(f, rows, entries[i]);
    assert rows[j] in rows;
  }

  lemma {:induction false} FilterMapKeeps<A, B>(f: A -> Option<B>, s: seq<A>, j: nat)
    requires j < |s| && f(s[j]).Some?
    ensures f(s[j]).value in FilterMap(f, s)
  {
    if j > 0 {
      FilterMapKeeps(f, s[1..], j - 1);
    }
  }

  lemma CertKept(rows: seq<(string, CertRow)>, certs: map<string, CertRow>, secret: string, crypto: Crypto, id: string)
    requires Lists(rows, certs) && id in certs && AcceptableCert(id, certs[id], secret, crypto)
    ensures (id, certs[id].(keyPem := PlainKey(certs[id].keyPem, secret, crypto))) in CertsBack(rows, secret, crypto)
  {
    hide FilterMap, PlainKey;
    var f := (r: (string, CertRow)) => ExportCert(r, secret, crypto);
    var entries := FilterMap(f, rows);
    var j :| 0 <= j < |rows| && rows[j] == (id, certs[id]);
    FilterMapKeeps(f, rows, j);
    var i :| 0 <= i < |entries| && entries[i] == f(rows[j]).value;
    FilterMapKeeps(AcceptCert, entries, i);
  }

  /** Importing a database's own export. It goes through exactly when there is a
      secret or no certificate to encrypt; then groups and settings are the same,
      certificates are the same under re-encrypted keys, and the rules' columns
      are the same exactly when every rule has the fields import insists on. */
  lemma OwnBackup(db: Db, rows: Rows, crypto: Crypto)
    requires Sound(crypto) && UniqueDomains(db.certs) && ListsDb(rows, db)
    ensures var r := Imported(db, Export(rows, Secret(db), crypto), crypto);
            && (r.Ok? <==> Secret(db) != "" || forall id <- db.certs :: !AcceptableCert(id, db.certs[id], "", crypto))
            && (r.Ok? ==>
                  && r.value.groups == db.groups
                  && r.value.settings == db.settings
                  && SameCerts(db.certs, Secret(db), r.value.certs, Secret(db), crypto)
                  && (Configs(r.value.rules) == Configs(db.rules) <==>
                        forall id <- db.rules :: AcceptableRule(id, db.rules[id].config)))
  {
    hide FilterMap, Upsert, ReplaceAll, PlainKey;
    var f := Export(rows, Secret(db), crypto);
    GroupsComeBack(rows.groups, db.groups);
    UpsertOwnRows(db.groups, Groups(f));
    SettingsComeBack(rows.settings, db.settings);
    UpsertOwnRows(db.settings, Settings(f));
    RulesRoundTrip(rows.rules, db.rules);
    assert Rules(f) == RulesBack(rows.rules);
    assert Certs(f) == CertsBack(rows.certs, Secret(db), crypto);
    forall r <- Certs(f)
      ensures r.0 in db.certs && AcceptableCert(r.0, db.certs[r.0], Secret(db), crypto)
      ensures r.1 == db.certs[r.0].(keyPem := PlainKey(db.certs[r.0].keyPem, Secret(db), crypto))
    {
      CertSource(rows.certs, db.certs, Secret(db), crypto, r);
    }
    if Secret(db) != "" {
      CertsRoundTrip(db.certs, Certs(f), Secret(db), crypto);
    } else if Certs(f) == [] {
      NothingReplaced(db.certs, Secret(db), crypto);
      forall id <- db.certs ensures !AcceptableCert(id, db.certs[id], "", crypto) {
        if AcceptableCert(id, db.certs[id], "", crypto) {
          CertKept(rows.certs, db.certs, "", crypto, id);
        }
      }
    } else {
      assert Certs(f)[0] in Certs(f);
    }
  }

  lemma NothingReplaced(certs: map<string, CertRow>, secret: string, crypto: Crypto)
    ensures ReplaceAll(certs, [], secret, crypto) == certs
  {
  }

  // -------------------------------------------- restoring somewhere else

  /** With distinct ids and domains, every row given is there afterwards. */
  lemma {:induction false} ReplaceHas(certs: map<string, CertRow>, rows: seq<(string, CertRow)>, secret: string,
      crypto: Crypto, r: (string, CertRow))
    requires Sound(crypto) && secret != "" && r in rows
    requires forall i, j | 0 <= i < j < |rows| :: rows[i].0 != rows[j].0 && rows[i].1.domain != rows[j].1.domain
    ensures var after := ReplaceAll(certs, rows, secret, crypto);
            r.0 in after && after[r.0].(keyPem := "") == r.1.(keyPem := "")
                && PlainKey(after[r.0].keyPem, secret, crypto) == r.1.keyPem
  {
    var n := |rows| - 1;
    assert rows == rows[..n] + [rows[n]];
    if r != rows[n] {
      assert r in rows[..n];
      ReplaceHas(certs, rows[..n], secret, crypto, r);
      var i :| 0 <= i < n && rows[i] == r;
      assert rows[i].1.domain != rows[n].1.domain;
    }
  }

  /** Two entries of the output come, in order, from two entries of the input. */
  lemma {:induction false} FilterMapPairs<A, B>(f: A -> Option<B>, s: seq<A>, i: nat, j: nat) returns (k: nat, l: nat)
    requires i < j < |FilterMap(f, s)|
    ensures k < l < |s| && f(s[k]) == Some(FilterMap(f, s)[i]) && f(s[l]) == Some(FilterMap(f, s)[j])
  {
    if f(s[0]).None? {
      k, l := FilterMapPairs(f, s[1..], i, j);
      k, l := k + 1, l + 1;
    } else if i > 0 {
      k, l := FilterMapPairs(f, s[1..], i - 1, j - 1);
      k, l := k + 1, l + 1;
    } else {
      k := 0;
      l := FilterMapOne(f, s[1..], j - 1);
      l := l + 1;
    }
  }

  lemma {:induction false} FilterMapOne<A, B>(f: A -> Option<B>, s: seq<A>, j: nat) returns (l: nat)
    requires j < |FilterMap(f, s)|
    ensures l < |s| && f(s[l]) == Some(FilterMap(f, s)[j])
  {
    if f(s[0]).Some? && j == 0 {
      l := 0;
    } else {
      l := FilterMapOne(f, s[1..], if f(s[0]).Some? then j - 1 else j);
      l := l + 1;
    }
  }

  lemma CertsStayDistinct(rows: seq<(string, CertRow)>, certs: map<string, CertRow>, secret: string, crypto: Crypto)
    requires Lists(rows, certs) && UniqueDomains(certs)
    ensures var back := CertsBack(rows, secret, crypto);
            forall i, j | 0 <= i < j < |back| :: back[i].0 != back[j].0 && back[i].1.domain != back[j].1.domain
  {
    hide FilterMap, PlainKey;
    var f := (r: (string, CertRow)) => ExportCert(r, secret, crypto);
    var entries := FilterMap(f, rows);
    var back := FilterMap(AcceptCert, entries);
    forall i, j | 0 <= i < j < |back| ensures back[i].0 != back[j].0 && back[i].1.domain != back[j].1.domain {
      var k, l := FilterMapPairs(AcceptCert, entries, i, j);
      var m, n := FilterMapPairs(f, rows, k, l);
      assert rows[m] in rows && rows[n] in rows;
      assert back[i].0 == rows[m].0 && back[j].0 == rows[n].0;
    }
  }

  lemma GroupsStayDistinct(rows: seq<(string, GroupRow)>, groups: map<string, GroupRow>, id: string)
    requires Lists(rows, groups) && id in groups && id != "" && groups[id].name != ""
    ensures var back := FilterMap(AcceptGroup, FilterMap(ExportGroup, rows));
            DistinctIds(back) && (id, groups[id]) in back
  {
    hide FilterMap;
    var entries := FilterMap(ExportGroup, rows);
    var back := FilterMap(AcceptGroup, entries);
    forall i, j | 0 <= i < j < |back| ensures back[i].0 != back[j].0 {
      var k, l := FilterMapPairs(AcceptGroup, entries, i, j);
      var m, n := FilterMapPairs(ExportGroup, rows, k, l);
      assert back[i].0 == rows[m].0 && back[j].0 == rows[n].0;
    }
    var j :| 0 <= j < |rows| && rows[j] == (id, groups[id]);
    FilterMapKeeps(ExportGroup, rows, j);
    var i :| 0 <= i < |entries| && entries[i] == ExportGroup(rows[j]).value;
    FilterMapKeeps(AcceptGroup, entries, i);
  }

  /** A backup restored into any other database, under another secret: every
      complete port group and certificate of the source is there, with the key it
      had, and the rules are the source's. */
  lemma RestoreElsewhere(source: Db, rows: Rows, target: Db, crypto: Crypto)
    requires Sound(crypto) && UniqueDomains(source.certs) && ListsDb(rows, source) && Secret(target) != ""
    ensures var r := Imported(target, Export(rows, Secret(source), crypto), crypto);
            && r.Ok?
            && (forall id <- source.groups :: id != "" && source.groups[id].name != "" ==>
                  id in r.value.groups && r.value.groups[id] == source.groups[id])
            && (forall id <- source.certs :: AcceptableCert(id, source.certs[id], Secret(source), crypto) ==>
                  && id in r.value.certs
                  && r.value.certs[id].(keyPem := "") == source.certs[id].(keyPem := "")
                  && PlainKey(r.value.certs[id].keyPem, Secret(target), crypto) ==
                      PlainKey(source.certs[id].keyPem, Secret(source), crypto))
            && (Configs(r.value.rules) == Configs(source.rules) <==>
                  forall id <- source.rules :: AcceptableRule(id, source.rules[id].config))
  {
    hide FilterMap, Upsert, ReplaceAll, PlainKey, AcceptableRule;
    var f := Export(rows, Secret(source), crypto);
    RulesRoundTrip(rows.rules, source.rules);
    assert Rules(f) == RulesBack(rows.rules);
    var after := Imported(target, f, crypto).value;
    forall id <- source.groups | id != "" && source.groups[id].name != ""
      ensures id in after.groups && after.groups[id] == source.groups[id]
    {
      GroupsStayDistinct(rows.groups, source.groups, id);
      UpsertHas(target.groups, Groups(f), (id, source.groups[id]));
    }
    assert Certs(f) == CertsBack(rows.certs, Secret(source), crypto);
    CertsStayDistinct(rows.certs, source.certs, Secret(source), crypto);
    forall id <- source.certs | AcceptableCert(id, source.certs[id], Secret(source), crypto)
      ensures id in after.certs && after.certs[id].(keyPem := "") == source.certs[id].(keyPem := "")
      ensures PlainKey(after.certs[id].keyPem, Secret(target), crypto) ==
          PlainKey(source.certs[id].keyPem, Secret(source), crypto)
    {
      var r := (id, source.certs[id].(keyPem := PlainKey(source.certs[id].keyPem, Secret(source), crypto)));
      CertKept(rows.certs, source.certs, Secret(source), crypto, id);
      ReplaceHas(target.certs, Certs(f), Secret(target), crypto, r);
    }
  }

  /** Reading a setting that may be encrypted with the local secret. */
  function SecretSetting(db: Db, key: string, crypto: Crypto): Option<string> {
    var v := Setting(db.settings, key);
    if "enc:" <= v then crypto.decrypt(v[4..], Secret(db)) else Some(v)
  }

  /** How a secret setting is written: encrypted with the local secret. */
  function Sealed(plain: string, secret: string, nonce: nat, crypto: Crypto): string {
    "enc:" + crypto.encrypt(plain, secret, nonce)
  }

  /** Only a value that begins with the four characters "enc:" is decrypted, the rest
      of it, with the secret stored beside it; any other is handed out as it is, and
      what is written comes back. */
  lemma SecretSettingExactly(db: Db, key: string, cipher: string, plain: string, nonce: nat, crypto: Crypto)
    ensures key !in db.settings ==> SecretSetting(db, key, crypto) == Some("")
    ensures key in db.settings ==>
              var v := db.settings[key];
              && (v == "enc:" + cipher ==>
                    SecretSetting(db, key, crypto) ==
                      crypto.decrypt(cipher, if "jwt_secret" in db.settings then db.settings["jwt_secret"] else ""))
              && (|v| < 4 || v[..4] != ['e', 'n', 'c', ':'] ==> SecretSetting(db, key, crypto) == Some(v))
    ensures Sound(crypto) && key in db.settings && db.settings[key] == Sealed(plain, Secret(db), nonce, crypto) ==>
              SecretSetting(db, key, crypto) == Some(plain)
  {
    assert ("enc:" + cipher)[4..] == cipher;
    assert Sealed(plain, Secret(db), nonce, crypto)[4..] == crypto.encrypt(plain, Secret(db), nonce);
    if key in db.settings {
      var v := db.settings[key];
      assert "enc:" == ['e', 'n', 'c', ':'];
      assert "enc:" <= v <==> |v| >= 4 && v[..4] == "enc:";
    }
  }

  /** Authenticated encryption: only the secret it was encrypted with decrypts. */
  ghost predicate Authentic(crypto: Crypto) {
    forall plain, secret, other, nonce ::
      crypto.decrypt(crypto.encrypt(plain, secret, nonce), other) == if other == secret then Some(plain) else None
  }

  /** Export holds the setting back, or import skips it. */
  predicate StaysHome(key: string) {
    key == "" || Sensitive(key) || Protected(key)
  }

  lemma SettingSource(rows: seq<(string, string)>, settings: map<string, string>)
    requires Lists(rows, settings)
    ensures forall r <- FilterMap(AcceptSetting, FilterMap(ExportSetting, rows)) :: r.0 in settings && !StaysHome(r.0)
  {
    hide FilterMap, Sensitive, Protected;
    var entries := FilterMap(ExportSetting, rows);
    forall r <- FilterMap(AcceptSetting, entries) ensures r.0 in settings && !StaysHome(r.0) {
      var i := FilterMapSource(AcceptSetting, entries, r);
      var j := FilterMapSource(ExportSetting, rows, entries[i]);
      assert r.0 == rows[j].0 && rows[j] in rows;
    }
  }

  /** The settings of a database after a restore, one by one: a setting of the
      source arrives, as stored, exactly when it neither is held back nor skipped;
      every other setting is what it was, or is still missing. */
  lemma SettingTravels(source: Db, rows: Rows, target: Db, crypto: Crypto, key: string)
    requires ListsDb(rows, source) && Imported(target, Export(rows, Secret(source), crypto), crypto).Ok?
    ensures var after := Imported(target, Export(rows, Secret(source), crypto), crypto).value;
            && (key in source.settings && !StaysHome(key) ==>
                  key in after.settings && after.settings[key] == source.settings[key])
            && (key !in source.settings || StaysHome(key) ==>
                  && (key in after.settings <==> key in target.settings)
                  && (key in target.settings ==> after.settings[key] == target.settings[key]))
            && Secret(after) == Secret(target)
  {
    hide FilterMap, Upsert, ReplaceAll, PlainKey, Sensitive, Protected;
    var f := Export(rows, Secret(source), crypto);
    var accepted := Settings(f);
    SettingSource(rows.settings, source.settings);
    UpsertKeys(target.settings, accepted);
    SecretIsProtected();
    ProtectedStays(Or(f.settings, []), target.settings, "jwt_secret");
    if key in source.settings && !StaysHome(key) {
      SettingsAccepted(rows.settings, source.settings, key);
      UpsertHas(target.settings, accepted, (key, source.settings[key]));
    }
  }

  lemma SecretIsProtected()
    ensures Protected("jwt_secret")
  {
  }

  /** What export writes and import skips: two settings, no more. */
  lemma SkippedSettings(key: string)
    ensures key != "" && !Sensitive(key) && Protected(key) <==>
        key in {"setup_complete", "ddns_aliyun_access_key_secret"}
  {
    var a, b := "setup_complete", "ddns_aliyun_access_key_secret";
    assert a[0] != "jwt_secret"[0] && a[0] != "ddns_cf_token"[0] && a[0] != "acme_account_key"[0]
        && a[0] != "acme_challenge_"[0];
    assert b[0] != "jwt_secret"[0] && b[5] != "ddns_cf_token"[5] && b[0] != "acme_account_key"[0]
        && b[0] != "acme_challenge_"[0];
  }

  /** A secret setting that travels in a backup can be read in the new database if
      and only if that database has the same secret; otherwise reading it fails. */
  lemma SecretSettingTravels(source: Db, rows: Rows, target: Db, crypto: Crypto, key: string, plain: string, nonce: nat)
    requires ListsDb(rows, source) && key in source.settings && key != "" && !Sensitive(key) && !Protected(key)
    requires Imported(target, Export(rows, Secret(source), crypto), crypto).Ok?
    requires Authentic(crypto) && source.settings[key] == Sealed(plain, Secret(source), nonce, crypto)
    ensures var after := Imported(target, Export(rows, Secret(source), crypto), crypto).value;
            && SecretSetting(source, key, crypto) == Some(plain)
            && (SecretSetting(after, key, crypto) == Some(plain) <==> Secret(target) == Secret(source))
            && (SecretSetting(after, key, crypto) == None <==> Secret(target) != Secret(source))
  {
    hide FilterMap, Upsert, ReplaceAll, Export, Imported;
    SettingTravels(source, rows, target, crypto, key);
    assert Sealed(plain, Secret(source), nonce, crypto)[4..] == crypto.encrypt(plain, Secret(source), nonce);
  }

  /** The ACME account of one installation restored into another: its credentials
      are there and cannot be read. */
  lemma AccountUnreadable(crypto: Crypto, old': string, new': string, plain: string, nonce: nat)
    returns (source: Db, rows: Rows, target: Db)
    requires Authentic(crypto) && old' != new'
    ensures ListsDb(rows, source) && Secret(source) == old' && Secret(target) == new'
    ensures SecretSetting(source, "acme_credentials", crypto) == Some(plain)
    ensures var r := Imported(target, Export(rows, old', crypto), crypto);
            && r.Ok? && Setting(r.value.settings, "acme_credentials") != ""
            && SecretSetting(r.value, "acme_credentials", crypto) == None
  {
    var account := Sealed(plain, old', nonce, crypto);
    source := Db(map[], map[], map[], map["jwt_secret" := old', "acme_credentials" := account]);
    target := Db(map[], map[], map[], map["jwt_secret" := new']);
    rows := Rows([], [], [], [("jwt_secret", old'), ("acme_credentials", account)]);
    assert ("acme_credentials", account) == rows.settings[1] && ("jwt_secret", old') == rows.settings[0];
    AccountTravels();
    NothingElse(rows, target, old', crypto);
    hide FilterMap, Upsert, ReplaceAll, Export, Imported, Sensitive, Protected;
    SettingTravels(source, rows, target, crypto, "acme_credentials");
    SecretSettingTravels(source, rows, target, crypto, "acme_credentials", plain, nonce);
  }

  lemma AccountTravels()
    ensures !Sensitive("acme_credentials") && !Protected("acme_credentials")
  {
    var key := "acme_credentials";
    assert key[0] != "jwt_secret"[0] && key[0] != "ddns_cf_token"[0];
    assert key[5] != "acme_account_key"[5] && key[6] != "acme_challenge_"[6];
  }

  lemma NothingElse(rows: Rows, target: Db, secret: string, crypto: Crypto)
    requires rows.certs == [] && rows.rules == []
    ensures Imported(target, Export(rows, secret, crypto), crypto).Ok?
  {
    var f := Export(rows, secret, crypto);
    assert f.certs == Some([]) && f.rules == Some([]);
  }

  lemma SettingsAccepted(rows: seq<(string, string)>, settings: map<string, string>, key: string)
    requires Lists(rows, settings) && key in settings && key != "" && !Sensitive(key) && !Protected(key)
    ensures var back := FilterMap(AcceptSetting, FilterMap(ExportSetting, rows));
            DistinctIds(back) && (key, settings[key]) in back
  {
    hide FilterMap, Sensitive, Protected;
    var entries := FilterMap(ExportSetting, rows);
    var back := FilterMap(AcceptSetting, entries);
    forall i, j | 0 <= i < j < |back| ensures back[i].0 != back[j].0 {
      var k, l := FilterMapPairs(AcceptSetting, entries, i, j);
      var m, n := FilterMapPairs(ExportSetting, rows, k, l);
      assert back[i].0 == rows[m].0 && back[j].0 == rows[n].0;
    }
    var j :| 0 <= j < |rows| && rows[j] == (key, settings[key]);
    FilterMapKeeps(ExportSetting, rows, j);
    var i :| 0 <= i < |entries| && entries[i] == ExportSetting(rows[j]).value;
    FilterMapKeeps(AcceptSetting, entries, i);
  }

  // --------------------------------------- an import, entry by entry and column

  /** The column holds what the entry says, or this value where it says nothing. */
  predicate Holds<T(==)>(column: T, said: Option<T>, otherwise: T) {
    said == Some(column) || (said == None && column == otherwise)
  }

  predicate Filled(said: Option<string>) {
    said != None && said != Some("")
  }

  /** Entries that are written, under this id; the others are passed over. */
  predicate GroupFor(e: GroupEntry, id: string) {
    e.id == Some(id) && id != "" && Filled(e.name)
  }

  predicate CertFor(e: CertEntry, id: string) {
    e.id == Some(id) && id != "" && Filled(e.domain) && Filled(e.certPem) && Filled(e.keyPem)
  }

  predicate RuleFor(e: RuleEntry, id: string) {
    e.id == Some(id) && id != "" && Filled(e.name) && Filled(e.domain) && Filled(e.targetUrl)
  }

  predicate SettingFor(e: SettingEntry, key: string) {
    && e.key == Some(key) && key != "" && !("acme_challenge_" <= key)
    && key != "acme_account_key" && key != "setup_complete" && key != "jwt_secret"
    && key != "ddns_cf_token" && key != "ddns_aliyun_access_key_secret"
  }

  predicate GroupSays(row: GroupRow, e: GroupEntry) {
    && e.name == Some(row.name) && Holds(row.listenPort, e.listenPort, 8443)
    && Holds(row.enabled, e.enabled, 0) && Holds(row.skipTls, e.skipTls, 0)
    && Holds(row.forceHttps, e.forceHttps, 0)
  }

  /** The row is the entry's, with its key encrypted under this secret. */
  ghost predicate CertSays(row: CertRow, e: CertEntry, secret: string, crypto: Crypto) {
    && e.domain == Some(row.domain) && e.certPem == Some(row.certPem)
    && Holds(row.expiresAt, e.expiresAt, "") && Holds(row.autoRenew, e.autoRenew, 1)
    && Holds(row.source, e.source, "acme")
    && e.keyPem.Some? && exists nonce :: row.keyPem == crypto.encrypt(e.keyPem.value, secret, nonce)
  }

  predicate RuleSays(row: RuleRow, e: RuleEntry) {
    && e.name == Some(row.config.name) && e.domain == Some(row.config.domain)
    && e.targetUrl == Some(row.config.targetUrl) && e.groupId == row.config.groupId
    && Holds(row.config.ruleType, e.ruleType, "proxy") && e.redirectCode == row.config.redirectCode
    && e.certId == row.config.certId && Holds(row.config.ssl, e.ssl, 0)
    && Holds(row.config.forceHttps, e.forceHttps, 0) && Holds(row.config.enabled, e.enabled, 1)
    && row.status == "unknown"
  }

  lemma GroupAccepted(e: GroupEntry, id: string)
    ensures GroupFor(e, id) <==> AcceptGroup(e).Some? && AcceptGroup(e).value.0 == id
    ensures GroupFor(e, id) ==> GroupSays(AcceptGroup(e).value.1, e)
  {
  }

  lemma CertAccepted(e: CertEntry, id: string)
    ensures CertFor(e, id) <==> AcceptCert(e).Some? && AcceptCert(e).value.0 == id
    ensures CertFor(e, id) ==>
              var row := AcceptCert(e).value.1;
              && e.keyPem == Some(row.keyPem) && e.domain == Some(row.domain)
              && forall key, secret, crypto: Crypto, nonce | key == crypto.encrypt(row.keyPem, secret, nonce) ::
                   CertSays(row.(keyPem := key), e, secret, crypto)
  {
  }

  lemma RuleAccepted(e: RuleEntry, id: string)
    ensures RuleFor(e, id) <==> AcceptRule(e).Some? && AcceptRule(e).value.0 == id
    ensures RuleFor(e, id) ==> RuleSays(AcceptRule(e).value.1, e)
  {
  }

  lemma SettingAccepted(e: SettingEntry, key: string)
    ensures SettingFor(e, key) <==> AcceptSetting(e).Some? && AcceptSetting(e).value.0 == key
    ensures SettingFor(e, key) ==> Holds(AcceptSetting(e).value.1, e.val, "")
  {
  }

  /** No entry from the i-th on is written under this key. */
  ghost predicate NoneFrom<E, V>(f: E -> Option<(string, V)>, entries: seq<E>, i: nat, key: string) {
    forall j | i <= j < |entries| :: f(entries[j]).Some? ==> f(entries[j]).value.0 != key
  }

  lemma {:induction false} UpsertAbsent<E, V>(table: map<string, V>, f: E -> Option<(string, V)>, entries: seq<E>,
      key: string)
    requires NoneFrom(f, entries, 0, key)
    ensures var after := Upsert(table, FilterMap(f, entries));
            (key in after <==> key in table) && (key in table ==> after[key] == table[key])
  {
    if entries != [] {
      var init, last := entries[..|entries| - 1], entries[|entries| - 1];
      assert init + [last] == entries;
      UpsertAbsent(table, f, init, key);
      FilterMapSnoc(f, init, last);
      hide FilterMap;
      if f(last).Some? { UpsertSnoc(table, FilterMap(f, init), f(last).value); }
    }
  }

  lemma {:induction false} UpsertLast<E, V>(table: map<string, V>, f: E -> Option<(string, V)>, entries: seq<E>,
      i: nat)
    requires i < |entries| && f(entries[i]).Some? && NoneFrom(f, entries, i + 1, f(entries[i]).value.0)
    ensures var after := Upsert(table, FilterMap(f, entries));
            f(entries[i]).value.0 in after && after[f(entries[i]).value.0] == f(entries[i]).value.1
  {
    var init, last := entries[..|entries| - 1], entries[|entries| - 1];
    assert init + [last] == entries;
    FilterMapSnoc(f, init, last);
    hide FilterMap;
    if f(last).Some? { UpsertSnoc(table, FilterMap(f, init), f(last).value); }
    if i < |entries| - 1 {
      UpsertLast(table, f, init, i);
    }
  }

  /** The port groups after an import: what the last entry for the id says, column
      by column, or what was there if there is none. */
  lemma GroupsImported(db: Db, f: File, crypto: Crypto, id: string)
    requires Imported(db, f, crypto).Ok?
    ensures var after := Imported(db, f, crypto).value.groups;
            && (forall i | f.groups.Some? && 0 <= i < |f.groups.value| ::
                  && GroupFor(f.groups.value[i], id)
                  && (forall j | i < j < |f.groups.value| :: !GroupFor(f.groups.value[j], id))
                  ==> id in after && GroupSays(after[id], f.groups.value[i]))
            && (f.groups.None? || (forall e <- f.groups.value :: !GroupFor(e, id)) ==>
                  (id in after <==> id in db.groups) && (id in after ==> after[id] == db.groups[id]))
  {
    hide FilterMap, Upsert, AcceptGroup, GroupFor, GroupSays;
    var entries := Or(f.groups, []);
    forall e: GroupEntry ensures GroupFor(e, id) <==> AcceptGroup(e).Some? && AcceptGroup(e).value.0 == id {
      GroupAccepted(e, id);
    }
    if forall e <- entries :: !GroupFor(e, id) {
      assert forall j | 0 <= j < |entries| :: entries[j] in entries;
      UpsertAbsent(db.groups, AcceptGroup, entries, id);
    }
    forall i | 0 <= i < |entries| && GroupFor(entries[i], id)
        && forall j | i < j < |entries| :: !GroupFor(entries[j], id)
      ensures id in Imported(db, f, crypto).value.groups
      ensures GroupSays(Imported(db, f, crypto).value.groups[id], entries[i])
    {
      GroupAccepted(entries[i], id);
      UpsertLast(db.groups, AcceptGroup, entries, i);
    }
  }

  /** The settings after an import, in the same way. */
  lemma SettingsImported(db: Db, f: File, crypto: Crypto, key: string)
    requires Imported(db, f, crypto).Ok?
    ensures var after := Imported(db, f, crypto).value.settings;
            && (forall i | f.settings.Some? && 0 <= i < |f.settings.value| ::
                  && SettingFor(f.settings.value[i], key)
                  && (forall j | i < j < |f.settings.value| :: !SettingFor(f.settings.value[j], key))
                  ==> key in after && Holds(after[key], f.settings.value[i].val, ""))
            && (f.settings.None? || (forall e <- f.settings.value :: !SettingFor(e, key)) ==>
                  (key in after <==> key in db.settings) && (key in after ==> after[key] == db.settings[key]))
  {
    hide FilterMap, Upsert, AcceptSetting, SettingFor, Holds;
    var entries := Or(f.settings, []);
    forall e: SettingEntry ensures SettingFor(e, key) <==> AcceptSetting(e).Some? && AcceptSetting(e).value.0 == key {
      SettingAccepted(e, key);
    }
    if forall e <- entries :: !SettingFor(e, key) {
      assert forall j | 0 <= j < |entries| :: entries[j] in entries;
      UpsertAbsent(db.settings, AcceptSetting, entries, key);
    }
    forall i | 0 <= i < |entries| && SettingFor(entries[i], key)
        && forall j | i < j < |entries| :: !SettingFor(entries[j], key)
      ensures key in Imported(db, f, crypto).value.settings
      ensures Holds(Imported(db, f, crypto).value.settings[key], entries[i].val, "")
    {
      SettingAccepted(entries[i], key);
      UpsertLast(db.settings, AcceptSetting, entries, i);
    }
  }

  /** The rules after an import: the table is left alone without a rules section;
      with one, nothing of it stays, and each rule is what the entry for its id
      says. */
  lemma RulesImported(db: Db, f: File, crypto: Crypto, id: string)
    requires Imported(db, f, crypto).Ok?
    ensures var after := Imported(db, f, crypto).value.rules;
            && (f.rules.None? ==> after == db.rules)
            && (f.rules.Some? ==>
                  && (id in after <==> exists e <- f.rules.value :: RuleFor(e, id))
                  && forall e <- f.rules.value :: RuleFor(e, id) ==> RuleSays(after[id], e))
  {
    hide FilterMap, Upsert, AcceptRule, RuleFor, RuleSays;
    if f.rules.Some? {
      var entries, rows := f.rules.value, Rules(f);
      UpsertKeys(map[], rows);
      if id in Upsert(map[], rows) {
        var r :| r in rows && r.0 == id;
        var i := FilterMapSource(AcceptRule, entries, r);
        RuleAccepted(entries[i], id);
        assert entries[i] in entries;
      }
      forall e <- entries | RuleFor(e, id)
        ensures id in Upsert(map[], rows) && RuleSays(Upsert(map[], rows)[id], e)
      {
        RuleAccepted(e, id);
        var i :| 0 <= i < |entries| && entries[i] == e;
        FilterMapKeeps(AcceptRule, entries, i);
        UpsertHas(map[], rows, AcceptRule(e).value);
      }
    }
  }

  /** No entry from the i-th on is written under this id or for this domain. */
  ghost predicate NoCertFrom(entries: seq<CertEntry>, i: nat, id: string, domain: string) {
    forall j | i <= j < |entries| :: AcceptCert(entries[j]).Some? ==>
        AcceptCert(entries[j]).value.0 != id && AcceptCert(entries[j]).value.1.domain != domain
  }

  lemma {:induction false} ReplaceAbsent(certs: map<string, CertRow>, entries: seq<CertEntry>, secret: string,
      crypto: Crypto, id: string)
    requires id in certs && NoCertFrom(entries, 0, id, certs[id].domain)
    ensures var after := ReplaceAll(certs, FilterMap(AcceptCert, entries), secret, crypto);
            id in after && after[id] == certs[id]
  {
    if entries != [] {
      var init, last := entries[..|entries| - 1], entries[|entries| - 1];
      assert init + [last] == entries;
      ReplaceAbsent(certs, init, secret, crypto, id);
      FilterMapSnoc(AcceptCert, init, last);
      assert AcceptCert(entries[|entries| - 1]).Some? ==> AcceptCert(last).value.0 != id;
      hide FilterMap, AcceptCert;
      if AcceptCert(last).Some? {
        ReplaceAllSnoc(certs, FilterMap(AcceptCert, init), AcceptCert(last).value, secret, crypto);
      }
    }
  }

  lemma {:induction false} ReplaceFrom(certs: map<string, CertRow>, entries: seq<CertEntry>, secret: string,
      crypto: Crypto, id: string)
    requires NoneFrom(AcceptCert, entries, 0, id)
    ensures var after := ReplaceAll(certs, FilterMap(AcceptCert, entries), secret, crypto);
            id in after ==> id in certs && after[id] == certs[id]
  {
    if entries != [] {
      var init, last := entries[..|entries| - 1], entries[|entries| - 1];
      assert init + [last] == entries;
      ReplaceFrom(certs, init, secret, crypto, id);
      FilterMapSnoc(AcceptCert, init, last);
      assert AcceptCert(entries[|entries| - 1]).Some? ==> AcceptCert(last).value.0 != id;
      hide FilterMap, AcceptCert;
      if AcceptCert(last).Some? {
        ReplaceAllSnoc(certs, FilterMap(AcceptCert, init), AcceptCert(last).value, secret, crypto);
      }
    }
  }

  lemma {:induction false} ReplaceLast(certs: map<string, CertRow>, entries: seq<CertEntry>, secret: string,
      crypto: Crypto, i: nat) returns (nonce: nat)
    requires i < |entries| && AcceptCert(entries[i]).Some?
    requires var (id, row) := AcceptCert(entries[i]).value; NoCertFrom(entries, i + 1, id, row.domain)
    ensures var after := ReplaceAll(certs, FilterMap(AcceptCert, entries), secret, crypto);
            var (id, row) := AcceptCert(entries[i]).value;
            id in after && after[id] == row.(keyPem := crypto.encrypt(row.keyPem, secret, nonce))
  {
    var init, last := entries[..|entries| - 1], entries[|entries| - 1];
    assert init + [last] == entries;
    hide FilterMap, ReplaceAll, AcceptCert;
    FilterMapSnoc(AcceptCert, init, last);
    var rows := FilterMap(AcceptCert, init);
    nonce := |rows|;
    if i < |entries| - 1 {
      assert init[i] == entries[i] && entries[|entries| - 1] == last;
      nonce := ReplaceLast(certs, init, secret, crypto, i);
    }
    if AcceptCert(last).Some? {
      ReplaceAllSnoc(certs, rows, AcceptCert(last).value, secret, crypto);
    }
  }

  /** The certificates after an import. An entry that no later one displaces, by its
      id or by its domain, is there, column by column, under a key encrypted with
      the secret of this database. A row that none of the entries displaces stays
      as it was, and no row appears without an entry. */
  lemma CertsImported(db: Db, f: File, crypto: Crypto, id: string)
    requires Imported(db, f, crypto).Ok?
    ensures var entries := if f.certs.Some? then f.certs.value else [];
            var after := Imported(db, f, crypto).value.certs;
            && (forall i | 0 <= i < |entries| && CertFor(entries[i], id) && Undisplaced(entries, i) ::
                  id in after && CertSays(after[id], entries[i], Secret(db), crypto))
            && (id in db.certs && (forall e <- entries :: !Displaces(e, id, db.certs[id].domain)) ==>
                  id in after && after[id] == db.certs[id])
            && ((forall e <- entries :: !CertFor(e, id)) && id in after ==>
                  id in db.certs && after[id] == db.certs[id])
  {
    hide FilterMap, ReplaceAll, AcceptCert, CertFor, CertSays;
    var entries := Or(f.certs, []);
    forall e: CertEntry ensures CertFor(e, id) <==> AcceptCert(e).Some? && AcceptCert(e).value.0 == id {
      CertAccepted(e, id);
    }
    assert forall j | 0 <= j < |entries| :: entries[j] in entries;
    if forall e <- entries :: !CertFor(e, id) {
      ReplaceFrom(db.certs, entries, Secret(db), crypto, id);
    }
    if id in db.certs && forall e <- entries :: !Displaces(e, id, db.certs[id].domain) {
      forall j | 0 <= j < |entries| ensures AcceptCert(entries[j]).Some? ==>
          AcceptCert(entries[j]).value.0 != id && AcceptCert(entries[j]).value.1.domain != db.certs[id].domain {
        DisplacesExactly(entries[j], id, db.certs[id].domain);
      }
      ReplaceAbsent(db.certs, entries, Secret(db), crypto, id);
    }
    forall i | 0 <= i < |entries| && CertFor(entries[i], id) && Undisplaced(entries, i)
      ensures id in Imported(db, f, crypto).value.certs
      ensures CertSays(Imported(db, f, crypto).value.certs[id], entries[i], Secret(db), crypto)
    {
      UndisplacedExactly(entries, i);
      var nonce := ReplaceLast(db.certs, entries, Secret(db), crypto, i);
      CertAccepted(entries[i], id);
    }
  }

  /** Writing the entry removes or overwrites a row of this id or this domain. */
  predicate Displaces(e: CertEntry, id: string, domain: string) {
    CertFor(e, Or(e.id, "")) && (e.id == Some(id) || e.domain == Some(domain))
  }

  ghost predicate Undisplaced(entries: seq<CertEntry>, i: nat)
    requires i < |entries|
  {
    forall j | i < j < |entries| ::
      !Displaces(entries[j], Or(entries[i].id, ""), Or(entries[i].domain, ""))
  }

  lemma DisplacesExactly(e: CertEntry, id: string, domain: string)
    ensures Displaces(e, id, domain) <==>
              AcceptCert(e).Some? && (AcceptCert(e).value.0 == id || AcceptCert(e).value.1.domain == domain)
  {
  }

  lemma UndisplacedExactly(entries: seq<CertEntry>, i: nat)
    requires i < |entries| && AcceptCert(entries[i]).Some? && Undisplaced(entries, i)
    ensures var (id, row) := AcceptCert(entries[i]).value; NoCertFrom(entries, i + 1, id, row.domain)
  {
    var (id, row) := AcceptCert(entries[i]).value;
    forall j | i < j < |entries| ensures AcceptCert(entries[j]).Some? ==>
        AcceptCert(entries[j]).value.0 != id && AcceptCert(entries[j]).value.1.domain != row.domain {
      DisplacesExactly(entries[j], id, row.domain);
    }
  }

  /** When an import fails, and with what: a backup without any section; else a
      certificate to encrypt and no secret; else two rules written under one id. */
  lemma ImportFailsExactly(db: Db, f: File, crypto: Crypto)
    ensures Imported(db, f, crypto) == Err(EmptyBackup) <==>
              f.groups == None && f.certs == None && f.rules == None && f.settings == None
    ensures Imported(db, f, crypto) == Err(NoSecret) <==> Keyless(db, f)
    ensures Imported(db, f, crypto) == Err(DuplicateRule) <==> !Keyless(db, f) && TwiceARule(f)
  {
    hide FilterMap, Upsert, ReplaceAll, AcceptCert, AcceptRule, CertFor, RuleFor;
    if f.certs.Some? {
      var entries := f.certs.value;
      forall e: CertEntry, id ensures CertFor(e, id) <==> AcceptCert(e).Some? && AcceptCert(e).value.0 == id {
        CertAccepted(e, id);
      }
      if Certs(f) != [] {
        assert Certs(f)[0] in Certs(f);
        var i := FilterMapSource(AcceptCert, entries, Certs(f)[0]);
        assert entries[i] in entries && CertFor(entries[i], Certs(f)[0].0);
      }
      if e, id :| e in entries && CertFor(e, id) {
        var i :| 0 <= i < |entries| && entries[i] == e;
        FilterMapKeeps(AcceptCert, entries, i);
      }
    } else {
      NothingFiltered(AcceptCert);
    }
    RulesRepeat(f);
  }

  lemma NothingFiltered<A, B>(f: A -> Option<B>)
    ensures FilterMap(f, []) == []
  {
  }

  /** Some certificate has to be encrypted, and there is no secret to do it with. */
  ghost predicate Keyless(db: Db, f: File) {
    && f.certs.Some? && (exists e <- f.certs.value, id :: CertFor(e, id))
    && ("jwt_secret" !in db.settings || db.settings["jwt_secret"] == "")
  }

  /** Two entries are written under one id. */
  ghost predicate TwiceARule(f: File) {
    f.rules.Some? && exists i, j, id | 0 <= i < j < |f.rules.value| ::
      RuleFor(f.rules.value[i], id) && RuleFor(f.rules.value[j], id)
  }

  lemma RulesRepeat(f: File)
    ensures DistinctIds(Rules(f)) <==> !TwiceARule(f)
  {
    hide FilterMap, AcceptRule, RuleFor;
    if f.rules.None? {
      NothingFiltered(AcceptRule);
    } else {
      var entries, rows := f.rules.value, Rules(f);
      forall e: RuleEntry, id ensures RuleFor(e, id) <==> AcceptRule(e).Some? && AcceptRule(e).value.0 == id {
        RuleAccepted(e, id);
      }
      forall i, j | 0 <= i < j < |rows| && rows[i].0 == rows[j].0 ensures TwiceARule(f) {
        var k, l := FilterMapPairs(AcceptRule, entries, i, j);
        var id := rows[i].0;
        assert RuleFor(f.rules.value[k], id) && RuleFor(f.rules.value[l], id);
      }
      if i, j, id :| 0 <= i < j < |entries| && RuleFor(entries[i], id) && RuleFor(entries[j], id) {
        RepeatedEntries(entries, i, j);
      }
    }
  }

  lemma RepeatedEntries(entries: seq<RuleEntry>, i: nat, j: nat)
    requires i < j < |entries| && AcceptRule(entries[i]).Some? && AcceptRule(entries[j]).Some?
    requires AcceptRule(entries[i]).value.0 == AcceptRule(entries[j]).value.0
    ensures !DistinctIds(FilterMap(AcceptRule, entries))
  {
    hide FilterMap, AcceptRule;
    assert entries == entries[..j] + entries[j..];
    FilterMapAppend(AcceptRule, entries[..j], entries[j..]);
    FilterMapKeeps(AcceptRule, entries[..j], i);
    FilterMapKeeps(AcceptRule, entries[j..], 0);
    var before, behind := FilterMap(AcceptRule, entries[..j]), FilterMap(AcceptRule, entries[j..]);
    var k :| 0 <= k < |before| && before[k] == AcceptRule(entries[i]).value;
    var l :| 0 <= l < |behind| && behind[l] == AcceptRule(entries[j]).value;
    assert (before + behind)[k] == before[k] && (before + behind)[|before| + l] == behind[l];
  }

  // -------------------------------------------------- an export, row by row

  /** The settings that never leave. */
  predicate HeldBack(key: string) {
    "jwt_secret" <= key || "ddns_cf_token" <= key || "acme_account_key" <= key || "acme_challenge_" <= key
  }

  lemma {:induction false} FilterMapAll<A, B>(f: A -> Option<B>, s: seq<A>)
    requires forall i | 0 <= i < |s| :: f(s[i]).Some?
    ensures |FilterMap(f, s)| == |s| && forall i | 0 <= i < |s| :: FilterMap(f, s)[i] == f(s[i]).value
  {
    if s != [] {
      FilterMapAll(f, s[1..]);
    }
  }

  /** An export lists every port group, certificate and rule, each column as stored,
      except that a key is decrypted if the database has a secret and the key
      decrypts with it. */
  lemma ExportExactly(rows: Rows, secret: string, crypto: Crypto)
    ensures var f := Export(rows, secret, crypto);
            && f.groups.Some? && |f.groups.value| == |rows.groups|
            && f.certs.Some? && |f.certs.value| == |rows.certs|
            && f.rules.Some? && |f.rules.value| == |rows.rules|
            && (forall i | 0 <= i < |rows.groups| ::
                  f.groups.value[i].id == Some(rows.groups[i].0) && GroupTold(f.groups.value[i], rows.groups[i].1))
            && (forall i | 0 <= i < |rows.certs| ::
                  && f.certs.value[i].id == Some(rows.certs[i].0)
                  && CertTold(f.certs.value[i], rows.certs[i].1, secret, crypto))
            && (forall i | 0 <= i < |rows.rules| ::
                  f.rules.value[i].id == Some(rows.rules[i].0) && RuleTold(f.rules.value[i], rows.rules[i].1.config))
  {
    hide FilterMap, PlainKey;
    var g := (r: (string, CertRow)) => ExportCert(r, secret, crypto);
    FilterMapAll(ExportGroup, rows.groups);
    FilterMapAll(g, rows.certs);
    FilterMapAll(ExportRule, rows.rules);
    forall i | 0 <= i < |rows.certs|
      ensures CertTold(ExportCert(rows.certs[i], secret, crypto).value, rows.certs[i].1, secret, crypto)
    {
      CertIsTold(rows.certs[i], secret, crypto);
    }
    hide ExportCert, CertTold;
  }

  lemma CertIsTold(r: (string, CertRow), secret: string, crypto: Crypto)
    ensures ExportCert(r, secret, crypto).Some? && ExportCert(r, secret, crypto).value.id == Some(r.0)
    ensures CertTold(ExportCert(r, secret, crypto).value, r.1, secret, crypto)
  {
  }

  predicate GroupTold(e: GroupEntry, row: GroupRow) {
    && e.name == Some(row.name) && e.listenPort == Some(row.listenPort) && e.enabled == Some(row.enabled)
    && e.skipTls == Some(row.skipTls) && e.forceHttps == Some(row.forceHttps)
  }

  predicate CertTold(e: CertEntry, row: CertRow, secret: string, crypto: Crypto) {
    && e.domain == Some(row.domain) && e.certPem == Some(row.certPem) && e.expiresAt == Some(row.expiresAt)
    && e.autoRenew == Some(row.autoRenew) && e.source == Some(row.source)
    && e.keyPem == (if secret != "" && crypto.decrypt(row.keyPem, secret) != None
                    then crypto.decrypt(row.keyPem, secret) else Some(row.keyPem))
  }

  predicate RuleTold(e: RuleEntry, c: RuleConfig) {
    && e.groupId == c.groupId && e.name == Some(c.name) && e.domain == Some(c.domain)
    && e.targetUrl == Some(c.targetUrl) && e.ruleType == Some(c.ruleType) && e.redirectCode == c.redirectCode
    && e.certId == c.certId && e.ssl == Some(c.ssl) && e.forceHttps == Some(c.forceHttps)
    && e.enabled == Some(c.enabled)
  }

  /** And every setting, with its value, but those that are held back. */
  lemma SettingsExported(rows: Rows, secret: string, crypto: Crypto, key: string, val: string)
    ensures Export(rows, secret, crypto).settings.Some?
    ensures SettingEntry(Some(key), Some(val)) in Export(rows, secret, crypto).settings.value <==>
              (key, val) in rows.settings && !HeldBack(key)
    ensures forall e <- Export(rows, secret, crypto).settings.value :: e.key.Some? && e.val.Some?
  {
    hide FilterMap, Sensitive, HeldBack;
    assert HeldBack(key) <==> Sensitive(key) by { HeldBackMeans(key); }
    var entries := FilterMap(ExportSetting, rows.settings);
    forall e <- entries
      ensures e.key.Some? && e.val.Some? && (e.key.value, e.val.value) in rows.settings && !Sensitive(e.key.value)
    {
      var i := FilterMapSource(ExportSetting, rows.settings, e);
      assert rows.settings[i] in rows.settings;
    }
    if (key, val) in rows.settings && !Sensitive(key) {
      var i :| 0 <= i < |rows.settings| && rows.settings[i] == (key, val);
      FilterMapKeeps(ExportSetting, rows.settings, i);
    }
  }

  lemma HeldBackMeans(key: string)
    ensures HeldBack(key) <==> Sensitive(key)
  {
  }
}
