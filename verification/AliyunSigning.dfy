/**
  How a request to the Aliyun DNS API is written and signed, and why the other
  side can read it back: percent-encoding (sections 2.1 and 2.3 of RFC 3986), the
  canonical query, the string to sign and the request URL.

  The keyed hash followed by base64 is a parameter, `mac`.
*/
module AliyunSigning {
  import opened Common

  type Text = seq<byte>

  type Param = (Text, Text)

  function AsciiCode(c: char): byte
    requires c < '\U{0080}'
  {
    c as int
  }

  function Ascii(s: string): (r: Text)
    requires forall i | 0 <= i < |s| :: s[i] < '\U{0080}'
    ensures |r| == |s| && forall i | 0 <= i < |s| :: r[i] == AsciiCode(s[i])
  {
    seq(|s|, i requires 0 <= i < |s| => AsciiCode(s[i]))
  }

  const AMP: byte := 38
  const EQUALS: byte := 61
  const PERCENT: byte := 37
  const QUESTION: byte := 63
  const SLASH: byte := 47

  // --------------------------------------------------------- percent-encoding

  predicate Unreserved(b: byte) {
    || 65 <= b <= 90 || 97 <= b <= 122 || 48 <= b <= 57
    || b == 45 || b == 95 || b == 46 || b == 126
  }

  function HexDigit(n: nat): byte
    requires n < 16
  {
    if n < 10 then 48 + n else 55 + n
  }

  function EncodedByte(b: byte): (r: Text)
    ensures forall c <- r :: Unreserved(c) || c == PERCENT
  {
    if Unreserved(b) then [b] else [PERCENT, HexDigit(b / 16), HexDigit(b % 16)]
  }

  function Encoded(s: Text): (r: Text)
    ensures forall c <- r :: Unreserved(c) || c == PERCENT
  {
    if s == [] then [] else EncodedByte(s[0]) + Encoded(s[1..])
  }

  lemma {:induction false} EncodedSnoc(s: Text, b: byte)
    ensures Encoded(s + [b]) == Encoded(s) + EncodedByte(b)
  {
    if s != [] {
      assert (s + [b])[1..] == s[1..] + [b];
      EncodedSnoc(s[1..], b);
    }
  }

  method PercentEncode(s: Text) returns (r: Text)
    ensures r == Encoded(s)
  {
    hide Encoded;
    r := [];
    assert s[..0] == [] && Encoded([]) == [] by { EmptyEncoded(); }
    for i := 0 to |s|
      invariant r == Encoded(s[..i])
    {
      EncodedSnoc(s[..i], s[i]);
      assert s[..i + 1] == s[..i] + [s[i]];
      if Unreserved(s[i]) {
        r := r + [s[i]];
      } else {
        r := r + [PERCENT, HexDigit(s[i] / 16), HexDigit(s[i] % 16)];
      }
    }
    assert s[..|s|] == s;
  }

  lemma EmptyEncoded()
    ensures Encoded([]) == []
  {
  }

  function HexValue(c: byte): Option<nat> {
    if 48 <= c <= 57 then Some(c - 48)
    else if 65 <= c <= 70 then Some(c - 55)
    else if 97 <= c <= 102 then Some(c - 87)
    else None
  }

  /** Reading percent-encoded text, as any server does. */
  function Decoded(s: Text): Option<Text> {
    if s == [] then Some([])
    else if s[0] != PERCENT then
      var rest := Decoded(s[1..]);
      if rest.Some? then Some([s[0]] + rest.value) else None
    else if |s| < 3 || HexValue(s[1]).None? || HexValue(s[2]).None? then None
    else
      var rest := Decoded(s[3..]);
      if rest.Some? then Some([DecodedByte(s[1], s[2])] + rest.value) else None
  }

  function DecodedByte(hi: byte, lo: byte): byte
    requires HexValue(hi).Some? && HexValue(lo).Some?
  {
    HexValue(hi).value * 16 + HexValue(lo).value
  }

  lemma {:induction false} DecodeInverts(s: Text)
    ensures Decoded(Encoded(s)) == Some(s)
  {
    if s != [] {
      var e, rest := EncodedByte(s[0]), Encoded(s[1..]);
      DecodeInverts(s[1..]);
      assert (e + rest)[|e|..] == rest;
      assert s == [s[0]] + s[1..];
      if !Unreserved(s[0]) {
        assert DecodedByte(e[1], e[2]) == s[0];
      }
    }
  }

  lemma EncodedInjective(a: Text, b: Text)
    requires Encoded(a) == Encoded(b)
    ensures a == b
  {
    DecodeInverts(a);
    DecodeInverts(b);
  }

  lemma EncodedHasNoSeparator(s: Text)
    ensures AMP !in Encoded(s) && EQUALS !in Encoded(s)
  {
  }

  // ------------------------------------------------------- queries, both ways

  function PairText(p: Param): Text {
    Encoded(p.0) + ([EQUALS] + Encoded(p.1))
  }

  function PairTexts(ps: seq<Param>): (r: seq<Text>)
    ensures |r| == |ps| && forall i | 0 <= i < |ps| :: r[i] == PairText(ps[i])
  {
    seq(|ps|, i requires 0 <= i < |ps| => PairText(ps[i]))
  }

  function Query(ps: seq<Param>): Text {
    Join(PairTexts(ps), AMP)
  }

  /** Reading one key=value pair: split at the first '=', decode both sides. */
  function ReadPair(t: Text): Option<Param> {
    var halves := Split(t, EQUALS);
    if |halves| != 2 then None
    else
      var k, v := Decoded(halves[0]), Decoded(halves[1]);
      if k.Some? && v.Some? then Some((k.value, v.value)) else None
  }

  function ReadPairs(ts: seq<Text>): Option<seq<Param>> {
    if ts == [] then Some([])
    else
      var p, rest := ReadPair(ts[0]), ReadPairs(ts[1..]);
      if p.Some? && rest.Some? then Some([p.value] + rest.value) else None
  }

  function ReadQuery(q: Text): Option<seq<Param>> {
    if q == [] then Some([]) else ReadPairs(Split(q, AMP))
  }

  lemma PairReads(p: Param)
    ensures ReadPair(PairText(p)) == Some(p)
    ensures AMP !in PairText(p) && PairText(p) != []
  {
    hide Encoded, Decoded;
    EncodedHasNoSeparator(p.0);
    EncodedHasNoSeparator(p.1);
    SplitFirst(Encoded(p.0), Encoded(p.1), EQUALS);
    SplitPlain(Encoded(p.1), EQUALS);
    DecodeInverts(p.0);
    DecodeInverts(p.1);
  }

  lemma {:induction false} PairsRead(ps: seq<Param>)
    ensures ReadPairs(PairTexts(ps)) == Some(ps)
  {
    hide PairText, ReadPair;
    if ps != [] {
      PairReads(ps[0]);
      PairsRead(ps[1..]);
      assert PairTexts(ps)[1..] == PairTexts(ps[1..]);
      assert ps == [ps[0]] + ps[1..];
    }
  }

  /** Reading a query gives back exactly the parameters it was written from. */
  lemma QueryReads(ps: seq<Param>)
    ensures ReadQuery(Query(ps)) == Some(ps)
  {
    hide PairText, ReadPair, ReadPairs, Split;
    if ps != [] {
      forall t <- PairTexts(ps) ensures AMP !in t && t != [] {
        var i :| 0 <= i < |ps| && t == PairText(ps[i]);
        PairReads(ps[i]);
      }
      SplitInvertsJoin(PairTexts(ps), AMP);
      PairReads(ps[0]);
      assert PairTexts(ps)[0] == PairText(ps[0]) != [];
      assert Query(ps) != [];
      PairsRead(ps);
    }
  }

  // ------------------------------------------------------------- sort by key

  /** Byte order on keys. */
  predicate AtMost(a: Text, b: Text) {
    || a == []
    || (b != [] && (a[0] < b[0] || (a[0] == b[0] && AtMost(a[1..], b[1..]))))
  }

  lemma {:induction false} AtMostTotal(a: Text, b: Text)
    ensures AtMost(a, b) || AtMost(b, a)
    ensures AtMost(a, b) && AtMost(b, a) ==> a == b
  {
    if a != [] && b != [] {
      assert a == [a[0]] + a[1..] && b == [b[0]] + b[1..];
      AtMostTotal(a[1..], b[1..]);
    }
  }

  lemma {:induction false} AtMostTransitive(a: Text, b: Text, c: Text)
    requires AtMost(a, b) && AtMost(b, c)
    ensures AtMost(a, c)
  {
    if a != [] && a[0] == b[0] && b[0] == c[0] {
      AtMostTransitive(a[1..], b[1..], c[1..]);
    }
  }

  /** Put p in front of the first parameter whose key is not below its own. */
  function Insert(p: Param, ps: seq<Param>): seq<Param> {
    if ps == [] || AtMost(p.0, ps[0].0) then [p] + ps
    else [ps[0]] + Insert(p, ps[1..])
  }

  /** The stable sort by key. */
  function Sorted(ps: seq<Param>): seq<Param> {
    if ps == [] then [] else Insert(ps[0], Sorted(ps[1..]))
  }

  ghost predicate InOrder(ps: seq<Param>) {
    forall i, j | 0 <= i < j < |ps| :: AtMost(ps[i].0, ps[j].0)
  }

  ghost predicate DistinctKeys(ps: seq<Param>) {
    forall i, j | 0 <= i < j < |ps| :: ps[i].0 != ps[j].0
  }

  /** The parameters with a given key, in the order given. */
  function Having(ps: seq<Param>, key: Text): seq<Param> {
    if ps == [] then [] else (if ps[0].0 == key then [ps[0]] else []) + Having(ps[1..], key)
  }

  lemma {:induction false} InsertAdds(p: Param, ps: seq<Param>)
    ensures multiset(Insert(p, ps)) == multiset(ps) + multiset{p}
  {
    if !(ps == [] || AtMost(p.0, ps[0].0)) {
      InsertAdds(p, ps[1..]);
      assert ps == [ps[0]] + ps[1..];
    }
  }

  /** Equal keys keep their order: an inserted parameter goes in front of them. */
  lemma {:induction false} InsertHaving(p: Param, ps: seq<Param>, key: Text)
    ensures Having(Insert(p, ps), key) == (if p.0 == key then [p] else []) + Having(ps, key)
  {
    hide AtMost;
    if ps == [] || AtMost(p.0, ps[0].0) {
      assert Insert(p, ps)[1..] == ps;
    } else {
      InsertHaving(p, ps[1..], key);
      assert Insert(p, ps)[1..] == Insert(p, ps[1..]);
      assert p.0 != ps[0].0 by { AtMostTotal(p.0, p.0); }
    }
  }

  lemma {:induction false} InsertKeepsOrder(p: Param, ps: seq<Param>)
    requires InOrder(ps)
    ensures InOrder(Insert(p, ps))
  {
    hide AtMost;
    if ps == [] || AtMost(p.0, ps[0].0) {
      forall j | 0 < j < |ps| ensures AtMost(p.0, ps[j].0) {
        AtMostTransitive(p.0, ps[0].0, ps[j].0);
      }
    } else {
      var rest := Insert(p, ps[1..]);
      InsertKeepsOrder(p, ps[1..]);
      InsertAdds(p, ps[1..]);
      AtMostTotal(p.0, ps[0].0);
      forall j | 0 <= j < |rest| ensures AtMost(ps[0].0, rest[j].0) {
        assert rest[j] in multiset(rest);
        if rest[j] != p {
          var k :| 0 <= k < |ps| - 1 && ps[1..][k] == rest[j];
          assert ps[k + 1] == rest[j];
        }
      }
    }
  }

  /** The sort orders, loses nothing, and keeps equal keys in their order. */
  lemma {:induction false} SortedSorts(ps: seq<Param>)
    ensures InOrder(Sorted(ps)) && multiset(Sorted(ps)) == multiset(ps)
    ensures forall key :: Having(Sorted(ps), key) == Having(ps, key)
  {
    if ps != [] {
      assert ps == [ps[0]] + ps[1..];
      SortedSorts(ps[1..]);
      InsertKeepsOrder(ps[0], Sorted(ps[1..]));
      InsertAdds(ps[0], Sorted(ps[1..]));
      forall key ensures Having(Sorted(ps), key) == Having(ps, key) {
        InsertHaving(ps[0], Sorted(ps[1..]), key);
      }
    }
  }

  lemma FirstIsLeast(a: seq<Param>, x: Param)
    requires InOrder(a) && x in a
    ensures AtMost(a[0].0, x.0)
  {
    AtMostTotal(x.0, x.0);
  }

  /** Two ordered lists of the same parameters, keys distinct, are one list. */
  lemma {:induction false} OrderedUnique(a: seq<Param>, b: seq<Param>)
    requires InOrder(a) && InOrder(b) && multiset(a) == multiset(b) && DistinctKeys(a)
    ensures a == b
  {
    hide AtMost;
    assert |a| == |multiset(a)| == |multiset(b)| == |b|;
    if a != [] {
      var x, y := a[0], b[0];
      assert a == [x] + a[1..] && b == [y] + b[1..];
      assert x in multiset(b) && y in multiset(a);
      FirstIsLeast(a, y);
      FirstIsLeast(b, x);
      AtMostTotal(x.0, y.0);
      assert x == y;
      TailsMatch(a, b);
      OrderedUnique(a[1..], b[1..]);
    }
  }

  lemma TailsMatch(a: seq<Param>, b: seq<Param>)
    requires a != [] && b != [] && a[0] == b[0] && multiset(a) == multiset(b)
    ensures multiset(a[1..]) == multiset(b[1..])
  {
    assert a == [a[0]] + a[1..] && b == [b[0]] + b[1..];
    assert multiset(a[1..]) == multiset(a) - multiset{a[0]};
    assert multiset(b[1..]) == multiset(b) - multiset{b[0]};
  }

  /** Whatever order distinct parameters come in, they sort to one list. */
  lemma SortedCanonical(ps: seq<Param>, qs: seq<Param>)
    requires multiset(ps) == multiset(qs) && DistinctKeys(ps)
    ensures Sorted(ps) == Sorted(qs)
  {
    SortedSorts(ps);
    SortedSorts(qs);
    DistinctUnderPermutation(ps, Sorted(ps));
    OrderedUnique(Sorted(ps), Sorted(qs));
  }

  lemma {:induction false} DistinctUnderPermutation(ps: seq<Param>, qs: seq<Param>)
    requires multiset(ps) == multiset(qs) && DistinctKeys(ps)
    ensures DistinctKeys(qs)
  {
    forall i, j | 0 <= i < j < |qs| ensures qs[i].0 != qs[j].0 {
      if qs[i].0 == qs[j].0 {
        assert qs[i] in multiset(ps) && qs[j] in multiset(ps);
        var k :| 0 <= k < |ps| && ps[k] == qs[i];
        var l :| 0 <= l < |ps| && ps[l] == qs[j];
        assert k == l;
        TwiceInSeq(qs, i, j);
        OnceInSeq(ps, k);
      }
    }
  }

  lemma TwiceInSeq(qs: seq<Param>, i: nat, j: nat)
    requires i < j < |qs| && qs[i] == qs[j]
    ensures multiset(qs)[qs[i]] >= 2
  {
    assert qs == qs[..j] + [qs[j]] + qs[j + 1..];
    assert qs[i] in qs[..j];
  }

  lemma OnceInSeq(ps: seq<Param>, k: nat)
    requires k < |ps| && DistinctKeys(ps)
    ensures multiset(ps)[ps[k]] == 1
  {
    assert ps == ps[..k] + [ps[k]] + ps[k + 1..];
    assert ps[k] !in ps[..k] && ps[k] !in ps[k + 1..];
  }

  // ----------------------------------------------------------------- signing

  function Canonical(ps: seq<Param>): Text {
    Query(Sorted(ps))
  }

  function StringToSign(verb: Text, ps: seq<Param>): Text {
    verb + ([AMP] + (Encoded([SLASH]) + ([AMP] + Encoded(Canonical(ps)))))
  }

  function Signature(verb: Text, ps: seq<Param>, secret: Text, mac: (Text, Text) -> Text): Text {
    mac(secret + [AMP], StringToSign(verb, ps))
  }

  /** The signature of distinct parameters does not depend on their order. */
  lemma SignatureIgnoresOrder(verb: Text, ps: seq<Param>, qs: seq<Param>, secret: Text, mac: (Text, Text) -> Text)
    requires multiset(ps) == multiset(qs) && DistinctKeys(ps)
    ensures Signature(verb, ps, secret, mac) == Signature(verb, qs, secret, mac)
  {
    SortedCanonical(ps, qs);
  }

  /** The canonical query determines the parameters up to order. */
  lemma CanonicalInjective(ps: seq<Param>, qs: seq<Param>)
    requires Canonical(ps) == Canonical(qs)
    ensures multiset(ps) == multiset(qs)
  {
    QueryReads(Sorted(ps));
    QueryReads(Sorted(qs));
    SortedSorts(ps);
    SortedSorts(qs);
  }

  /** So does the string to sign, together with the verb. */
  lemma StringToSignInjective(verb: Text, ps: seq<Param>, verb': Text, qs: seq<Param>)
    requires AMP !in verb && AMP !in verb'
    requires StringToSign(verb, ps) == StringToSign(verb', qs)
    ensures verb == verb' && multiset(ps) == multiset(qs)
  {
    SplitStringToSign(verb, ps);
    SplitStringToSign(verb', qs);
    var three := [verb, Encoded([SLASH]), Encoded(Canonical(ps))];
    var three' := [verb', Encoded([SLASH]), Encoded(Canonical(qs))];
    assert three == three';
    assert verb == three[0] == three'[0] == verb';
    assert three[2] == three'[2];
    EncodedInjective(Canonical(ps), Canonical(qs));
    CanonicalInjective(ps, qs);
  }

  lemma SplitStringToSign(verb: Text, ps: seq<Param>)
    requires AMP !in verb
    ensures Split(StringToSign(verb, ps), AMP) == [verb, Encoded([SLASH]), Encoded(Canonical(ps))]
  {
    hide Encoded, Canonical, Split;
    var c, s := Encoded(Canonical(ps)), Encoded([SLASH]);
    EncodedHasNoSeparator([SLASH]);
    EncodedHasNoSeparator(Canonical(ps));
    SplitFirst(verb, s + ([AMP] + c), AMP);
    SplitFirst(s, c, AMP);
    SplitPlain(c, AMP);
  }

  // ------------------------------------------------------------- the request

  const ENDPOINT: Text := Ascii("https://alidns.aliyuncs.com")
  const SIGNATURE_KEY: Text := Ascii("Signature")
  const GET: Text := Ascii("GET")

  function CommonParams(action: Text, keyId: Text, timestamp: Text, nonce: Text): seq<Param> {
    [(Ascii("Action"), action), (Ascii("Version"), Ascii("2015-01-09")), (Ascii("Format"), Ascii("JSON")),
     (Ascii("SignatureMethod"), Ascii("HMAC-SHA1")), (Ascii("SignatureVersion"), Ascii("1.0")),
     (Ascii("AccessKeyId"), keyId), (Ascii("Timestamp"), timestamp), (Ascii("SignatureNonce"), nonce)]
  }

  function RequestUrl(ps: seq<Param>, secret: Text, mac: (Text, Text) -> Text): Text {
    ENDPOINT + ([QUESTION] + Query(ps + [(SIGNATURE_KEY, Signature(GET, ps, secret, mac))]))
  }

  /** Sort a copy, write the canonical query pair by pair, hash the result. */
  method Sign(verb: Text, ps: seq<Param>, secret: Text, mac: (Text, Text) -> Text) returns (signature: Text)
    ensures signature == Signature(verb, ps, secret, mac)
  {
    var sorted := Sorted(ps);
    var canonical := WriteQuery(sorted);
    var path := PercentEncode([SLASH]);
    var query := PercentEncode(canonical);
    var stringToSign := verb + ([AMP] + (path + ([AMP] + query)));
    signature := mac(secret + [AMP], stringToSign);
  }

  method WriteQuery(ps: seq<Param>) returns (q: Text)
    ensures q == Query(ps)
  {
    var pairs: seq<Text> := [];
    for i := 0 to |ps|
      invariant pairs == PairTexts(ps[..i])
    {
      var k := PercentEncode(ps[i].0);
      var v := PercentEncode(ps[i].1);
      pairs := pairs + [k + ([EQUALS] + v)];
      assert ps[..i + 1] == ps[..i] + [ps[i]];
      assert pairs == PairTexts(ps[..i + 1]);
    }
    assert ps[..|ps|] == ps;
    q := Join(pairs, AMP);
  }

  method BuildRequest(action: Text, params: seq<Param>, keyId: Text, secret: Text, timestamp: Text, nonce: Text,
                      mac: (Text, Text) -> Text) returns (url: Text)
    ensures url == RequestUrl(CommonParams(action, keyId, timestamp, nonce) + params, secret, mac)
  {
    var all := CommonParams(action, keyId, timestamp, nonce);
    all := all + params;
    var signature := Sign(GET, all, secret, mac);
    var query := WriteQuery(all + [(SIGNATURE_KEY, signature)]);
    url := ENDPOINT + ([QUESTION] + query);
  }

  // -------------------------------------------------------------- the server

  /** The query of a URL: everything after the first '?'. */
  function QueryPart(url: Text): Option<Text> {
    if url == [] then None
    else if url[0] == QUESTION then Some(url[1..])
    else QueryPart(url[1..])
  }

  lemma {:induction false} QueryPartAfter(x: Text, q: Text)
    requires QUESTION !in x
    ensures QueryPart(x + ([QUESTION] + q)) == Some(q)
  {
    if x == [] {
      assert x + ([QUESTION] + q) == [QUESTION] + q;
    } else {
      assert x == [x[0]] + x[1..];
      assert (x + ([QUESTION] + q))[1..] == x[1..] + ([QUESTION] + q);
      QueryPartAfter(x[1..], q);
    }
  }

  /** Splitting and decoding the URL recovers exactly the parameters, in order,
      followed by the signature. */
  lemma UrlReads(ps: seq<Param>, secret: Text, mac: (Text, Text) -> Text)
    ensures var q := QueryPart(RequestUrl(ps, secret, mac));
            q.Some? && ReadQuery(q.value) == Some(ps + [(SIGNATURE_KEY, Signature(GET, ps, secret, mac))])
  {
    hide Query, ReadQuery, Signature;
    var all := ps + [(SIGNATURE_KEY, Signature(GET, ps, secret, mac))];
    QueryPartAfter(ENDPOINT, Query(all));
    QueryReads(all);
  }

  function Without(ps: seq<Param>, key: Text): seq<Param> {
    if ps == [] then [] else (if ps[0].0 == key then [] else [ps[0]]) + Without(ps[1..], key)
  }

  /** A server takes a request when it carries one Signature parameter, equal to
      the signature it computes over all the others. */
  predicate Accepts(url: Text, secret: Text, mac: (Text, Text) -> Text) {
    var q := QueryPart(url);
    q.Some? &&
    var ps := ReadQuery(q.value);
    ps.Some? && Having(ps.value, SIGNATURE_KEY) ==
      [(SIGNATURE_KEY, Signature(GET, Without(ps.value, SIGNATURE_KEY), secret, mac))]
  }

  lemma {:induction false} HavingAppend(ps: seq<Param>, p: Param, key: Text)
    ensures Having(ps + [p], key) == Having(ps, key) + (if p.0 == key then [p] else [])
  {
    if ps != [] {
      assert (ps + [p])[1..] == ps[1..] + [p];
      HavingAppend(ps[1..], p, key);
    }
  }

  lemma {:induction false} WithoutAppend(ps: seq<Param>, p: Param, key: Text)
    ensures Without(ps + [p], key) == Without(ps, key) + (if p.0 == key then [] else [p])
  {
    if ps != [] {
      assert (ps + [p])[1..] == ps[1..] + [p];
      WithoutAppend(ps[1..], p, key);
    }
  }

  lemma {:induction false} WithoutAll(ps: seq<Param>, key: Text)
    ensures Having(ps, key) == [] <==> forall p <- ps :: p.0 != key
    ensures Having(ps, key) == [] ==> Without(ps, key) == ps
  {
    if ps != [] {
      assert ps == [ps[0]] + ps[1..];
      WithoutAll(ps[1..], key);
    }
  }

  /** Re-signing at the server gives the same signature: a built request is
      accepted exactly when the caller passed no parameter called Signature. */
  lemma BuiltRequestAccepted(ps: seq<Param>, secret: Text, mac: (Text, Text) -> Text)
    ensures Accepts(RequestUrl(ps, secret, mac), secret, mac) <==> forall p <- ps :: p.0 != SIGNATURE_KEY
  {
    hide Signature, RequestUrl, QueryPart, ReadQuery, SIGNATURE_KEY;
    var own := (SIGNATURE_KEY, Signature(GET, ps, secret, mac));
    UrlReads(ps, secret, mac);
    HavingAppend(ps, own, SIGNATURE_KEY);
    WithoutAppend(ps, own, SIGNATURE_KEY);
    WithoutAll(ps, SIGNATURE_KEY);
    if Having(ps, SIGNATURE_KEY) == [] {
      assert Having(ps + [own], SIGNATURE_KEY) == [own];
      assert Without(ps + [own], SIGNATURE_KEY) == ps;
    } else {
      assert |Having(ps + [own], SIGNATURE_KEY)| >= 2;
    }
  }

  // ---------------------------------------------- the requests that are sent

  /** Every call the provider makes. */
  datatype Call =
    | FindZone(domain: Text)
    | FindRecords(domain: Text, rr: Text, kind: Text)
    | FindChallenges(domain: Text)
    | AddRecord(domain: Text, rr: Text, kind: Text, value: Text, challenge: bool)
    | UpdateRecord(id: Text, rr: Text, kind: Text, value: Text)
    | DeleteRecord(id: Text)

  function Action(c: Call): Text {
    match c
    case FindZone(_) => Ascii("DescribeDomainRecords")
    case FindRecords(_, _, _) => Ascii("DescribeDomainRecords")
    case FindChallenges(_) => Ascii("DescribeDomainRecords")
    case AddRecord(_, _, _, _, _) => Ascii("AddDomainRecord")
    case UpdateRecord(_, _, _, _) => Ascii("UpdateDomainRecord")
    case DeleteRecord(_) => Ascii("DeleteDomainRecord")
  }

  function Params(c: Call): seq<Param> {
    match c
    case FindZone(domain) => [(Ascii("DomainName"), domain), (Ascii("PageSize"), Ascii("1"))]
    case FindRecords(domain, rr, kind) =>
      [(Ascii("DomainName"), domain), (Ascii("RRKeyWord"), rr), (Ascii("Type"), kind), (Ascii("PageSize"), Ascii("50"))]
    case FindChallenges(domain) =>
      [(Ascii("DomainName"), domain), (Ascii("RRKeyWord"), Ascii("_acme-challenge")),
       (Ascii("TypeKeyWord"), Ascii("TXT")), (Ascii("PageSize"), Ascii("50"))]
    case AddRecord(domain, rr, kind, value, challenge) =>
      [(Ascii("DomainName"), domain), (Ascii("RR"), rr), (Ascii("Type"), kind), (Ascii("Value"), value),
       (Ascii("TTL"), Ascii(if challenge then "60" else "120"))]
    case UpdateRecord(id, rr, kind, value) =>
      [(Ascii("RecordId"), id), (Ascii("RR"), rr), (Ascii("Type"), kind), (Ascii("Value"), value),
       (Ascii("TTL"), Ascii("120"))]
    case DeleteRecord(id) => [(Ascii("RecordId"), id)]
  }

  function Sent(c: Call, keyId: Text, timestamp: Text, nonce: Text): seq<Param> {
    CommonParams(Action(c), keyId, timestamp, nonce) + Params(c)
  }

  /** The length and the first letter of a parameter's name, which tell all the
      names in use apart. */
  function Tag(key: Text): int {
    if key == [] then 0 else 256 * |key| + key[0]
  }

  lemma CommonTags(action: Text, keyId: Text, timestamp: Text, nonce: Text)
    ensures var ps := CommonParams(action, keyId, timestamp, nonce);
            && |ps| == 8
            && Tag(ps[0].0) == 1601 && Tag(ps[1].0) == 1878 && Tag(ps[2].0) == 1606 && Tag(ps[3].0) == 3923
            && Tag(ps[4].0) == 4179 && Tag(ps[5].0) == 2881 && Tag(ps[6].0) == 2388 && Tag(ps[7].0) == 3667
  {
  }

  /** The parameters of a call have names of their own, none of them Signature. */
  lemma CallTags(c: Call)
    ensures var ps := Params(c);
            && (forall i | 0 <= i < |ps| :: Tag(ps[i].0) in {2628, 2128, 2386, 1108, 2900, 594, 1366, 852, 2130})
            && (forall i, j | 0 <= i < j < |ps| :: Tag(ps[i].0) != Tag(ps[j].0))
  {
    var ps := Params(c);
    match c {
      case FindZone(_) => assert Tag(ps[0].0) == 2628 && Tag(ps[1].0) == 2128;
      case FindRecords(_, _, _) =>
        assert Tag(ps[0].0) == 2628 && Tag(ps[1].0) == 2386 && Tag(ps[2].0) == 1108 && Tag(ps[3].0) == 2128;
      case FindChallenges(_) =>
        assert Tag(ps[0].0) == 2628 && Tag(ps[1].0) == 2386 && Tag(ps[2].0) == 2900 && Tag(ps[3].0) == 2128;
      case AddRecord(_, _, _, _, _) =>
        assert Tag(ps[0].0) == 2628 && Tag(ps[1].0) == 594 && Tag(ps[2].0) == 1108 && Tag(ps[3].0) == 1366
            && Tag(ps[4].0) == 852;
      case UpdateRecord(_, _, _, _) =>
        assert Tag(ps[0].0) == 2130 && Tag(ps[1].0) == 594 && Tag(ps[2].0) == 1108 && Tag(ps[3].0) == 1366
            && Tag(ps[4].0) == 852;
      case DeleteRecord(_) => assert Tag(ps[0].0) == 2130;
    }
  }

  lemma SentKeysDistinct(c: Call, keyId: Text, timestamp: Text, nonce: Text)
    ensures DistinctKeys(Sent(c, keyId, timestamp, nonce))
    ensures forall p <- Sent(c, keyId, timestamp, nonce) :: p.0 != SIGNATURE_KEY
  {
    hide CommonParams, Params, Action;
    var common := CommonParams(Action(c), keyId, timestamp, nonce);
    var own := Params(c);
    CommonTags(Action(c), keyId, timestamp, nonce);
    CallTags(c);
    assert Tag(SIGNATURE_KEY) == 2387;
    hide Tag, SIGNATURE_KEY;
    var all := Sent(c, keyId, timestamp, nonce);
    assert forall i | 0 <= i < 8 :: all[i] == common[i];
    assert forall i | 8 <= i < |all| :: all[i] == own[i - 8];
    assert forall i | 0 <= i < 8 :: Tag(common[i].0) in {1601, 1878, 1606, 3923, 4179, 2881, 2388, 3667};
    forall i, j | 0 <= i < j < |all| ensures all[i].0 != all[j].0 {
      assert Tag(all[i].0) != Tag(all[j].0);
    }
    forall i | 0 <= i < |all| ensures all[i].0 != SIGNATURE_KEY {
      assert Tag(all[i].0) != 2387;
    }
  }

  /** Every request the provider sends is accepted by a server that knows the
      secret, and would be signed the same in any other order of its parameters. */
  lemma SentRequestsAccepted(c: Call, keyId: Text, timestamp: Text, nonce: Text, secret: Text,
      mac: (Text, Text) -> Text)
    ensures var ps := Sent(c, keyId, timestamp, nonce);
            && Accepts(RequestUrl(ps, secret, mac), secret, mac)
            && forall qs :: multiset(qs) == multiset(ps) ==>
                 Signature(GET, qs, secret, mac) == Signature(GET, ps, secret, mac)
  {
    hide Accepts, RequestUrl, Signature, Sent, DistinctKeys, SIGNATURE_KEY;
    var ps := Sent(c, keyId, timestamp, nonce);
    SentKeysDistinct(c, keyId, timestamp, nonce);
    BuiltRequestAccepted(ps, secret, mac);
    forall qs | multiset(qs) == multiset(ps) ensures Signature(GET, qs, secret, mac) ==
        Signature(GET, ps, secret, mac) {
      SignatureIgnoresOrder(GET, ps, qs, secret, mac);
    }
  }

  /** Unless the hash collides on the two strings, a signature fits one set of
      parameters only. */
  lemma SignatureBindsParameters(ps: seq<Param>, qs: seq<Param>, secret: Text, mac: (Text, Text) -> Text)
    requires mac(secret + [AMP], StringToSign(GET, ps)) == mac(secret + [AMP], StringToSign(GET, qs)) ==>
               StringToSign(GET, ps) == StringToSign(GET, qs)
    requires Signature(GET, ps, secret, mac) == Signature(GET, qs, secret, mac)
    ensures multiset(ps) == multiset(qs)
  {
    StringToSignInjective(GET, ps, GET, qs);
  }

  // --------------------------------------- what goes out, byte by byte as text

  /** The bytes are those of a text of ASCII characters. */
  predicate Spells(t: Text, s: string) {
    |t| == |s| && forall i | 0 <= i < |s| :: t[i] as char == s[i]
  }

  /** A digit of section 2.1 of RFC 3986, in the upper case that the signature
      version asks for, and what it stands for. */
  predicate UpperHex(c: byte, n: int) {
    || ('0' <= c as char <= '9' && n == c - '0' as int)
    || ('A' <= c as char <= 'F' && n == 10 + c - 'A' as int)
  }

  /** The text is a percent sign and the two digits of the byte, the high one first. */
  ghost predicate Escapes(t: Text, b: byte) {
    && |t| == 3 && t[0] as char == '%'
    && exists hi, lo :: UpperHex(t[1], hi) && UpperHex(t[2], lo) && b == 16 * hi + lo
  }

  /** The encoding in full: it goes byte by byte; letters, digits and four marks
      stand for themselves; any other byte becomes a percent sign and its two upper
      case hexadecimal digits, the high one first. */
  lemma EncodedExactly(s: Text, t: Text, b: byte)
    ensures Encoded([]) == [] && Encoded(s + t) == Encoded(s) + Encoded(t)
    ensures var c := b as char;
            if 'A' <= c <= 'Z' || 'a' <= c <= 'z' || '0' <= c <= '9' || c == '-' || c == '_' || c == '.' || c == '~'
            then Encoded([b]) == [b]
            else Escapes(Encoded([b]), b)
  {
    EmptyEncoded();
    EncodedAppend(s, t);
    EncodedOne(b);
    hide Encoded;
    if !Unreserved(b) {
      var hi, lo := b / 16, b % 16;
      assert UpperHex(EncodedByte(b)[1], hi) && UpperHex(EncodedByte(b)[2], lo) && b == 16 * hi + lo;
    }
  }

  lemma {:induction false} EncodedAppend(s: Text, t: Text)
    ensures Encoded(s + t) == Encoded(s) + Encoded(t)
  {
    if t == [] {
      assert s + t == s;
    } else {
      hide Encoded;
      var init, last := t[..|t| - 1], t[|t| - 1];
      assert init + [last] == t && s + init + [last] == s + t;
      EncodedAppend(s, init);
      EncodedSnoc(init, last);
      EncodedSnoc(s + init, last);
    }
  }

  lemma EncodedOne(b: byte)
    ensures Encoded([b]) == EncodedByte(b)
  {
    EmptyEncoded();
    EncodedSnoc([], b);
    assert [] + [b] == [b];
  }

  /** Wherever encoded text holds a percent sign, two upper case digits follow. */
  lemma {:induction false} EscapesAreUpper(s: Text, i: nat)
    requires i < |Encoded(s)| && Encoded(s)[i] as char == '%'
    ensures i + 2 < |Encoded(s)|
    ensures forall k | i < k <= i + 2 :: '0' <= Encoded(s)[k] as char <= '9' || 'A' <= Encoded(s)[k] as char <= 'F'
  {
    var e := EncodedByte(s[0]);
    assert Encoded(s) == e + Encoded(s[1..]);
    if |e| <= i {
      hide EncodedByte;
      EscapesAreUpper(s[1..], i - |e|);
    }
  }

  /** The query in full: one pair is its key, '=' and its value, both encoded, and
      '&' stands between pairs. */
  lemma QueryExactly(p: Param, ps: seq<Param>, qs: seq<Param>)
    ensures Query([]) == [] && Query([p]) == Encoded(p.0) + ['=' as int] + Encoded(p.1)
    ensures ps != [] && qs != [] ==> Query(ps + qs) == Query(ps) + ['&' as int] + Query(qs)
  {
    hide Encoded;
    if ps != [] && qs != [] {
      var all := PairTexts(ps + qs);
      JoinCut(all, |ps|, AMP);
      assert all[..|ps|] == PairTexts(ps) && all[|ps|..] == PairTexts(qs);
    }
  }

  /** The order of the keys: the shorter first if it begins the other, else by the
      first byte where they differ. */
  lemma {:induction false} AtMostMeans(a: Text, b: Text)
    ensures AtMost(a, b) <==> a <= b || exists i :: DiffersAt(a, b, i)
  {
    if a != [] && b != [] {
      AtMostMeans(a[1..], b[1..]);
      if a[0] == b[0] {
        TailOrder(a, b);
      } else {
        assert DiffersAt(a, b, 0) <==> a[0] < b[0];
        assert forall i: nat | 0 < i < |a| && i < |b| :: a[..i][0] != b[..i][0];
      }
    }
  }

  /** Both texts are the same before the i-th byte, where the first has the lower. */
  predicate DiffersAt(a: Text, b: Text, i: int) {
    0 <= i < |a| && i < |b| && a[..i] == b[..i] && a[i] < b[i]
  }

  lemma DiffersInTail(a: Text, b: Text, i: nat)
    requires a != [] && b != [] && a[0] == b[0]
    ensures DiffersAt(a, b, i + 1) <==> DiffersAt(a[1..], b[1..], i)
  {
    if i + 1 < |a| && i + 1 < |b| {
      assert a[..i + 1] == [a[0]] + a[1..][..i] && b[..i + 1] == [b[0]] + b[1..][..i];
      assert a[..i + 1][1..] == a[1..][..i] && b[..i + 1][1..] == b[1..][..i];
    }
  }

  /** Behind an equal first byte the order is that of the rest. */
  lemma TailOrder(a: Text, b: Text)
    requires a != [] && b != [] && a[0] == b[0]
    ensures a <= b <==> a[1..] <= b[1..]
    ensures (exists i :: DiffersAt(a, b, i)) <==> exists i :: DiffersAt(a[1..], b[1..], i)
  {
    assert a == [a[0]] + a[1..] && b == [b[0]] + b[1..];
    if i :| DiffersAt(a, b, i) {
      DiffersInTail(a, b, i - 1);
    }
    if i :| DiffersAt(a[1..], b[1..], i) {
      DiffersInTail(a, b, i);
    }
  }

  /** What is hashed: the verb, an encoded slash and the encoded query of the
      parameters in key order, with '&' between them, under the secret and '&'. */
  lemma SignatureExactly(verb: Text, ps: seq<Param>, secret: Text, mac: (Text, Text) -> Text)
    returns (inOrder: seq<Param>, hashed: Text, path: Text, key: Text)
    ensures multiset(inOrder) == multiset(ps) && InOrder(inOrder)
    ensures Spells(path, "&%2F&") && hashed == verb + path + Encoded(Query(inOrder))
    ensures |key| == |secret| + 1 && key[..|secret|] == secret && key[|secret|] as char == '&'
    ensures Signature(verb, ps, secret, mac) == mac(key, hashed)
  {
    SortedSorts(ps);
    SlashSpells();
    inOrder, key, path := Sorted(ps), secret + [AMP], [AMP] + Encoded([SLASH]) + [AMP];
    hashed := verb + path + Encoded(Query(inOrder));
    Regroup(verb, [AMP], Encoded([SLASH]), [AMP], Encoded(Query(inOrder)));
    hide Encoded, Query, Sorted, Spells, InOrder;
  }

  lemma SlashSpells()
    ensures Spells([AMP] + Encoded([SLASH]) + [AMP], "&%2F&")
  {
    EncodedOne(SLASH);
  }

  lemma Regroup(a: Text, b: Text, c: Text, d: Text, e: Text)
    ensures a + (b + (c + (d + e))) == a + (b + c + d) + e
  {
    assert c + (d + e) == c + d + e;
    assert b + (c + d + e) == b + c + d + e;
  }

  /** The URL: the endpoint, '?', and the query of the parameters followed by their
      signature. */
  lemma UrlExactly(ps: seq<Param>, secret: Text, mac: (Text, Text) -> Text)
    returns (endpoint: Text, name: Text, verb: Text)
    ensures Spells(endpoint, "https://alidns.aliyuncs.com?") && Spells(name, "Signature") && Spells(verb, "GET")
    ensures RequestUrl(ps, secret, mac) == endpoint + Query(ps + [(name, Signature(verb, ps, secret, mac))])
  {
    endpoint, name, verb := ENDPOINT + [QUESTION], SIGNATURE_KEY, GET;
    hide Query, Signature;
    assert endpoint + Query(ps + [(name, Signature(verb, ps, secret, mac))]) == RequestUrl(ps, secret, mac);
  }

  predicate Named(ps: seq<Param>, names: seq<string>) {
    |ps| == |names| && forall i | 0 <= i < |ps| :: Spells(ps[i].0, names[i])
  }

  /** What every request says besides the caller's own parameters. */
  lemma CommonExactly(action: Text, keyId: Text, timestamp: Text, nonce: Text)
    ensures var ps := CommonParams(action, keyId, timestamp, nonce);
            && Named(ps, ["Action", "Version", "Format", "SignatureMethod", "SignatureVersion", "AccessKeyId",
                          "Timestamp", "SignatureNonce"])
            && ps[0].1 == action && Spells(ps[1].1, "2015-01-09") && Spells(ps[2].1, "JSON")
            && Spells(ps[3].1, "HMAC-SHA1") && Spells(ps[4].1, "1.0")
            && ps[5].1 == keyId && ps[6].1 == timestamp && ps[7].1 == nonce
  {
  }

  /** What each call that looks something up asks for: its action, the names of its
      parameters, and the values that are fixed. */
  lemma LookupExactly(domain: Text, rr: Text, kind: Text)
    ensures Spells(Action(FindZone(domain)), "DescribeDomainRecords")
    ensures Action(FindRecords(domain, rr, kind)) == Action(FindChallenges(domain)) == Action(FindZone(domain))
    ensures var ps := Params(FindZone(domain));
            Named(ps, ["DomainName", "PageSize"]) && ps[0].1 == domain && Spells(ps[1].1, "1")
    ensures var ps := Params(FindRecords(domain, rr, kind));
            && Named(ps, ["DomainName", "RRKeyWord", "Type", "PageSize"])
            && ps[0].1 == domain && ps[1].1 == rr && ps[2].1 == kind && Spells(ps[3].1, "50")
    ensures var ps := Params(FindChallenges(domain));
            && Named(ps, ["DomainName", "RRKeyWord", "TypeKeyWord", "PageSize"])
            && ps[0].1 == domain && Spells(ps[1].1, "_acme-challenge") && Spells(ps[2].1, "TXT")
            && Spells(ps[3].1, "50")
  {
  }

  /** The same of the call that adds a record. */
  lemma AddExactly(domain: Text, rr: Text, kind: Text, value: Text, challenge: bool)
    ensures Spells(Action(AddRecord(domain, rr, kind, value, challenge)), "AddDomainRecord")
    ensures var ps := Params(AddRecord(domain, rr, kind, value, challenge));
            && Named(ps, ["DomainName", "RR", "Type", "Value", "TTL"])
            && ps[0].1 == domain && ps[1].1 == rr && ps[2].1 == kind && ps[3].1 == value
            && Spells(ps[4].1, if challenge then "60" else "120")
  {
  }

  /** And of those that change a record or take one away. */
  lemma ChangeExactly(id: Text, rr: Text, kind: Text, value: Text)
    ensures Spells(Action(UpdateRecord(id, rr, kind, value)), "UpdateDomainRecord")
    ensures Spells(Action(DeleteRecord(id)), "DeleteDomainRecord")
    ensures var ps := Params(UpdateRecord(id, rr, kind, value));
            && Named(ps, ["RecordId", "RR", "Type", "Value", "TTL"])
            && ps[0].1 == id && ps[1].1 == rr && ps[2].1 == kind && ps[3].1 == value && Spells(ps[4].1, "120")
    ensures Named(Params(DeleteRecord(id)), ["RecordId"]) && Params(DeleteRecord(id))[0].1 == id
  {
  }
}
