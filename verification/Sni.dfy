/**
  The server-name peek that runs before a TLS connection is dispatched.

  A ClientHello is described from the outside, by its encoding (sections 4.1.2
  and 5.1 of RFC 8446, section 3 of RFC 6066). The byte scanner is then shown to
  invert that encoding. It accepts more than encodings: exactly which buffers is
  stated field by field, and so is which length checks it leaves out.
*/
module Sni {
  import opened Common

  // ---------------------------------------------------------------- encoding

  function U16(b: seq<byte>, pos: nat): (n: nat)
    requires pos + 2 <= |b|
    ensures n < 65536
  {
    (b[pos] as int) * 256 + b[pos + 1]
  }

  function U24(b: seq<byte>, pos: nat): (n: nat)
    requires pos + 3 <= |b|
    ensures n < 16777216
  {
    (b[pos] as int) * 65536 + (b[pos + 1] as int) * 256 + b[pos + 2]
  }

  function Be16(n: nat): (s: seq<byte>)
    requires n < 65536
    ensures |s| == 2
  {
    [n / 256, n % 256]
  }

  function Be24(n: nat): (s: seq<byte>)
    requires n < 16777216
    ensures |s| == 3
  {
    [n / 65536, n / 256 % 256, n % 256]
  }

  /** A byte string with a one-byte length in front. */
  function Vec8(x: seq<byte>): (s: seq<byte>)
    requires |x| < 256
    ensures |s| == 1 + |x|
  {
    [|x|] + x
  }

  /** A byte string with a two-byte length in front. */
  function Vec16(x: seq<byte>): (s: seq<byte>)
    requires |x| < 65536
    ensures |s| == 2 + |x|
  {
    Be16(|x|) + x
  }

  datatype ServerName = ServerName(kind: byte, name: seq<byte>) {
    ghost predicate Valid() { |name| < 65536 }

    function Encode(): (s: seq<byte>)
      requires Valid()
      ensures |s| == 3 + |name|
    {
      [kind] + Vec16(name)
    }
  }

  datatype Extension = Extension(kind: nat, data: seq<byte>) {
    ghost predicate Valid() { kind < 65536 && |data| < 65536 }

    function Encode(): (s: seq<byte>)
      requires Valid()
      ensures |s| == 4 + |data|
    {
      Be16(kind) + Vec16(data)
    }
  }

  ghost predicate ValidNames(ns: seq<ServerName>) {
    forall n <- ns :: n.Valid()
  }

  ghost predicate ValidExtensions(es: seq<Extension>) {
    forall e <- es :: e.Valid()
  }

  function EncodeNames(ns: seq<ServerName>): seq<byte>
    requires ValidNames(ns)
  {
    if ns == [] then [] else ns[0].Encode() + EncodeNames(ns[1..])
  }

  function EncodeExtensions(es: seq<Extension>): seq<byte>
    requires ValidExtensions(es)
  {
    if es == [] then [] else es[0].Encode() + EncodeExtensions(es[1..])
  }

  // ------------------------------------------------------------------- UTF-8

  predicate Continuation(x: byte) { 0x80 <= x <= 0xBF }

  /** The length of the well-formed character that s starts with, or 0: no
      overlong form, no surrogate, nothing above U+10FFFF (section 4 of RFC 3629). */
  function Utf8Char(s: seq<byte>): (n: nat)
    ensures n <= |s|
  {
    if |s| >= 1 && s[0] <= 0x7F then 1
    else if |s| >= 2 && 0xC2 <= s[0] <= 0xDF && Continuation(s[1]) then 2
    else if |s| >= 3 && 0xE0 <= s[0] <= 0xEF && Continuation(s[1]) && Continuation(s[2])
            && (s[0] == 0xE0 ==> s[1] >= 0xA0) && (s[0] == 0xED ==> s[1] <= 0x9F) then 3
    else if |s| >= 4 && 0xF0 <= s[0] <= 0xF4 && Continuation(s[1]) && Continuation(s[2]) && Continuation(s[3])
            && (s[0] == 0xF0 ==> s[1] >= 0x90) && (s[0] == 0xF4 ==> s[1] <= 0x8F) then 4
    else 0
  }

  predicate Utf8(s: seq<byte>) {
    s == [] || (Utf8Char(s) > 0 && Utf8(s[Utf8Char(s)..]))
  }

  function FromUtf8(s: seq<byte>): Option<seq<byte>> {
    if Utf8(s) then Some(s) else None
  }

  /** A Unicode scalar value: a code point that is not a surrogate. */
  predicate Scalar(c: nat) {
    c < 0xD800 || 0xE000 <= c <= 0x10FFFF
  }

  /** Its encoding (section 3 of RFC 3629). */
  function EncodeScalar(c: nat): (s: seq<byte>)
    requires Scalar(c)
    ensures 1 <= |s| <= 4
  {
    if c < 0x80 then [c]
    else if c < 0x800 then [0xC0 + c / 64, 0x80 + c % 64]
    else if c < 0x10000 then [0xE0 + c / 4096, 0x80 + c / 64 % 64, 0x80 + c % 64]
    else [0xF0 + c / 262144, 0x80 + c / 4096 % 64, 0x80 + c / 64 % 64, 0x80 + c % 64]
  }

  function EncodeText(cs: seq<nat>): seq<byte>
    requires forall c <- cs :: Scalar(c)
  {
    if cs == [] then [] else EncodeScalar(cs[0]) + EncodeText(cs[1..])
  }

  /** What follows a whole character does not matter for it. */
  lemma CharOf(c: nat, rest: seq<byte>)
    requires Scalar(c)
    ensures Utf8Char(EncodeScalar(c) + rest) == |EncodeScalar(c)|
  {
    var e := EncodeScalar(c);
    var s := e + rest;
    assert forall i | 0 <= i < |e| :: s[i] == e[i];
    if 0x800 <= c < 0x10000 {
      ThreeBytes(c);
    } else if c >= 0x10000 {
      FourBytes(c);
    }
  }

  lemma ThreeBytes(c: nat)
    requires Scalar(c) && 0x800 <= c < 0x10000
    ensures c / 4096 <= 15
    ensures c / 4096 == 0 ==> c / 64 % 64 >= 0x20
    ensures c / 4096 == 13 ==> c / 64 % 64 <= 0x1F
  {
    var q := c / 64;
    assert q / 64 == c / 4096 && q == 64 * (q / 64) + q % 64 && c == 64 * q + c % 64;
  }

  lemma FourBytes(c: nat)
    requires Scalar(c) && c >= 0x10000
    ensures c / 262144 <= 4
    ensures c / 262144 == 0 ==> c / 4096 % 64 >= 0x10
    ensures c / 262144 == 4 ==> c / 4096 % 64 <= 0x0F
  {
    var q := c / 4096;
    assert q / 64 == c / 262144 && q == 64 * (q / 64) + q % 64 && c == 4096 * q + c % 4096;
  }

  lemma Digits64(hi: nat, lo: nat)
    requires lo < 64
    ensures (64 * hi + lo) / 64 == hi && (64 * hi + lo) % 64 == lo
  {
  }

  lemma Nested64(c: nat)
    ensures c / 4096 == c / 64 / 64 && c / 262144 == c / 64 / 64 / 64
  {
  }

  lemma ThreeDigits(x: nat, y: nat, z: nat)
    requires y < 64 && z < 64
    ensures var c := 64 * (64 * x + y) + z; c / 4096 == x && c / 64 % 64 == y && c % 64 == z
  {
    Digits64(64 * x + y, z);
    Digits64(x, y);
    Nested64(64 * (64 * x + y) + z);
  }

  lemma FourDigits(x: nat, y: nat, z: nat, u: nat)
    requires y < 64 && z < 64 && u < 64
    ensures var c := 64 * (64 * (64 * x + y) + z) + u;
            c / 262144 == x && c / 4096 % 64 == y && c / 64 % 64 == z && c % 64 == u
  {
    Digits64(64 * (64 * x + y) + z, u);
    Digits64(64 * x + y, z);
    Digits64(x, y);
    Nested64(64 * (64 * (64 * x + y) + z) + u);
  }

  /** The scalar value that a well-formed character stands for. */
  lemma ScalarOf(s: seq<byte>) returns (c: nat)
    requires Utf8Char(s) > 0
    ensures Scalar(c) && EncodeScalar(c) == s[..Utf8Char(s)]
  {
    var n := Utf8Char(s);
    if n == 1 {
      c := s[0];
    } else if n == 2 {
      var x: nat, y: nat := s[0] - 0xC0, s[1] - 0x80;
      Digits64(x, y);
      c := 64 * x + y;
    } else if n == 3 {
      c := ThreeByteScalar(s);
    } else {
      c := FourByteScalar(s);
    }
    assert s[..n] == EncodeScalar(c);
  }

  lemma ThreeByteScalar(s: seq<byte>) returns (c: nat)
    requires Utf8Char(s) == 3
    ensures Scalar(c) && EncodeScalar(c) == s[..3]
  {
    var x: nat, y: nat, z: nat := s[0] - 0xE0, s[1] - 0x80, s[2] - 0x80;
    ThreeDigits(x, y, z);
    c := 64 * (64 * x + y) + z;
    assert 0x800 <= c < 0x10000 && Scalar(c);
    assert s[..3] == [s[0], s[1], s[2]];
  }

  lemma FourByteScalar(s: seq<byte>) returns (c: nat)
    requires Utf8Char(s) == 4
    ensures Scalar(c) && EncodeScalar(c) == s[..4]
  {
    var x: nat, y: nat, z: nat, u: nat := s[0] - 0xF0, s[1] - 0x80, s[2] - 0x80, s[3] - 0x80;
    FourDigits(x, y, z, u);
    c := 64 * (64 * (64 * x + y) + z) + u;
    assert 0x10000 <= c <= 0x10FFFF;
    assert s[..4] == [s[0], s[1], s[2], s[3]];
  }

  lemma {:induction false} TextIsUtf8(cs: seq<nat>)
    requires forall c <- cs :: Scalar(c)
    ensures Utf8(EncodeText(cs))
  {
    hide Utf8Char, EncodeScalar;
    if cs != [] {
      var e, rest := EncodeScalar(cs[0]), EncodeText(cs[1..]);
      CharOf(cs[0], rest);
      TextIsUtf8(cs[1..]);
      assert (e + rest)[|e|..] == rest;
    }
  }

  lemma {:induction false} Utf8IsText(s: seq<byte>) returns (cs: seq<nat>)
    requires Utf8(s)
    ensures (forall c <- cs :: Scalar(c)) && EncodeText(cs) == s
    decreases |s|
  {
    if s == [] {
      cs := [];
    } else {
      hide Utf8Char, EncodeScalar, Scalar;
      var n := Utf8Char(s);
      var c := ScalarOf(s);
      var rest := Utf8IsText(s[n..]);
      cs := [c] + rest;
      assert cs[1..] == rest && s == s[..n] + s[n..];
    }
  }

  /** Bytes are read as text exactly when they are a text encoded character by
      character. */
  lemma Utf8Exact(s: seq<byte>)
    ensures Utf8(s) <==> exists cs: seq<nat> :: (forall c <- cs :: Scalar(c)) && EncodeText(cs) == s
  {
    hide Utf8, EncodeText, Scalar;
    if Utf8(s) {
      var cs := Utf8IsText(s);
    }
    if cs: seq<nat> :| (forall c <- cs :: Scalar(c)) && EncodeText(cs) == s {
      TextIsUtf8(cs);
    }
  }

  /** ASCII, host names among it, is text. */
  lemma {:induction false} AsciiIsText(s: seq<byte>)
    requires forall b <- s :: b < 0x80
    ensures Utf8(s)
  {
    if s != [] {
      assert s[0] in s && forall b <- s[1..] :: b in s;
      assert Utf8Char(s) == 1;
      AsciiIsText(s[1..]);
    }
  }

  // ----------------------------------------------- what the scanner computes

  function ScanNames(b: seq<byte>, pos: nat, end: nat): Option<seq<byte>>
    requires pos <= end <= |b|
    decreases end - pos
  {
    if pos + 3 <= end then
      var len := U16(b, pos + 1);
      if pos + 3 + len > end then None
      else if b[pos] == 0 then Some(b[pos + 3..pos + 3 + len])
      else ScanNames(b, pos + 3 + len, end)
    else None
  }

  /** The position and declared length of the first server_name extension body,
      when the extensions in front of it are intact. */
  function FindServerName(b: seq<byte>, pos: nat, end: nat): (r: Option<(nat, nat)>)
    requires pos <= end <= |b|
    ensures r.Some? ==> r.value.0 + r.value.1 <= end
    decreases end - pos
  {
    if pos + 4 <= end then
      var len := U16(b, pos + 2);
      if pos + 4 + len > end then None
      else if U16(b, pos) == 0 then Some((pos + 4, len))
      else FindServerName(b, pos + 4 + len, end)
    else None
  }

  function ScanList(b: seq<byte>, pos: nat, end: nat): Option<seq<byte>>
    requires pos <= end <= |b|
  {
    if pos + 2 > end then None
    else if pos + 2 + U16(b, pos) > end then None
    else ScanNames(b, pos + 2, pos + 2 + U16(b, pos))
  }

  function ScanExtensions(b: seq<byte>, pos: nat, end: nat): Option<seq<byte>>
    requires pos <= end <= |b|
  {
    var found := FindServerName(b, pos, end);
    if found.Some? then ScanList(b, found.value.0, end) else None
  }

  /** The bounds of the extension block, or None when a length in front of it
      does not fit the buffer. */
  function ExtensionBlock(b: seq<byte>): (r: Option<(nat, nat)>)
    ensures r.Some? ==> r.value.0 <= r.value.1 <= |b|
  {
    if |b| < 43 || b[0] != 0x16 then None
    else if U16(b, 3) + 5 > |b| || b[5] != 0x01 || U24(b, 6) + 9 > |b| || 43 >= |b| then None
    else
      var p1: int := 44 + (b[43] as int);
      if p1 + 2 > |b| then None
      else
        var p2 := p1 + 2 + U16(b, p1);
        if p2 + 1 > |b| then None
        else
          var p3 := p2 + 1 + b[p2];
          if p3 + 2 > |b| then None
          else if p3 + 2 + U16(b, p3) > |b| then None
          else Some((p3 + 2, p3 + 2 + U16(b, p3)))
  }

  /** The bytes of the host name, before they are read as text. */
  function HostBytes(b: seq<byte>): Option<seq<byte>> {
    var block := ExtensionBlock(b);
    if block.Some? then ScanExtensions(b, block.value.0, block.value.1) else None
  }

  function Sni(b: seq<byte>): Option<seq<byte>> {
    var raw := HostBytes(b);
    if raw.Some? then FromUtf8(raw.value) else None
  }

  /** The straight-line part of the scanner: skip to the extension block. */
  method SkipToExtensions(buf: seq<byte>) returns (r: Option<(nat, nat)>)
    ensures r == ExtensionBlock(buf)
  {
    if |buf| < 43 || buf[0] != 0x16 { return None; }
    var recordLen := U16(buf, 3);
    if recordLen + 5 > |buf| { return None; }
    if buf[5] != 0x01 { return None; }
    var hsLen := U24(buf, 6);
    if hsLen + 9 > |buf| { return None; }

    var pos := 9 + 2 + 32;
    if pos >= |buf| { return None; }
    var sidLen := buf[pos];
    pos := pos + 1 + sidLen;
    if pos + 2 > |buf| { return None; }

    var csLen := U16(buf, pos);
    pos := pos + 2 + csLen;
    if pos + 1 > |buf| { return None; }

    var cmLen := buf[pos];
    pos := pos + 1 + cmLen;
    if pos + 2 > |buf| { return None; }

    var extTotal := U16(buf, pos);
    pos := pos + 2;
    var extEnd := pos + extTotal;
    if extEnd > |buf| { return None; }
    return Some((pos, extEnd));
  }

  /** The inner loop: the list of names in a server_name extension. */
  method ReadServerNames(buf: seq<byte>, start: nat, extEnd: nat) returns (r: Option<seq<byte>>)
    requires start <= extEnd <= |buf|
    ensures r == ScanList(buf, start, extEnd)
  {
    if start + 2 > extEnd { return None; }
    var listLen := U16(buf, start);
    var pos := start + 2;
    var listEnd := pos + listLen;
    if listEnd > extEnd { return None; }

    while pos + 3 <= listEnd
      invariant pos <= listEnd
      invariant ScanList(buf, start, extEnd) == ScanNames(buf, pos, listEnd)
      decreases listEnd - pos
    {
      var nameType := buf[pos];
      var nameLen := U16(buf, pos + 1);
      pos := pos + 3;
      if pos + nameLen > listEnd { return None; }
      if nameType == 0 {
        return Some(buf[pos..pos + nameLen]);
      }
      pos := pos + nameLen;
    }
    return None;
  }

  /** The scanner: one cursor over the extensions. Every index is in bounds for
      every buffer, and both loops terminate. */
  method ExtractSni(buf: seq<byte>) returns (r: Option<seq<byte>>)
    ensures r == Sni(buf)
  {
    var block := SkipToExtensions(buf);
    if block.None? { return None; }
    var (pos, extEnd) := block.value;

    while pos + 4 <= extEnd
      invariant pos <= extEnd <= |buf|
      invariant HostBytes(buf) == ScanExtensions(buf, pos, extEnd)
      decreases extEnd - pos
    {
      var extType := U16(buf, pos);
      var extLen := U16(buf, pos + 2);
      pos := pos + 4;
      if pos + extLen > extEnd { return None; }

      if extType == 0x0000 {
        var host := ReadServerNames(buf, pos, extEnd);
        if host.None? { return None; }
        return FromUtf8(host.value);
      }
      pos := pos + extLen;
    }
    return None;
  }

  // ------------------------------------------------- exactly what is accepted

  /** How a buffer with a visible host name is put together. The two length
      fields of the server_name extension are kept apart from the names because
      nothing forces them to agree. */
  datatype Anatomy = Anatomy(
    sessionId: seq<byte>, cipherSuites: seq<byte>, compression: seq<byte>,
    extTotal: nat, before: seq<Extension>, extLen: nat, listLen: nat, skipped: seq<ServerName>)
  {
    ghost predicate Valid() {
      && |sessionId| < 256 && |cipherSuites| < 65536 && |compression| < 256
      && extTotal < 65536 && extLen < 65536 && listLen < 65536
      && ValidExtensions(before) && (forall e <- before :: e.kind != 0)
      && ValidNames(skipped) && (forall n <- skipped :: n.kind != 0)
    }

    /** Everything from the session id up to the first byte of the extensions. */
    ghost function Prologue(): (s: seq<byte>)
      requires Valid()
      ensures |s| == 6 + |sessionId| + |cipherSuites| + |compression|
    {
      Vec8(sessionId) + (Vec16(cipherSuites) + (Vec8(compression) + Be16(extTotal)))
    }

    /** The extension block up to the first name of the server_name list. */
    ghost function UpToNames(): (s: seq<byte>)
      requires Valid()
      ensures |s| == |EncodeExtensions(before)| + 6
    {
      EncodeExtensions(before) + (Be16(0) + (Be16(extLen) + Be16(listLen)))
    }

    ghost function Names(host: seq<byte>): seq<byte>
      requires Valid() && |host| < 65536
    {
      EncodeNames(skipped) + ServerName(0, host).Encode()
    }
  }

  /** The buffer opens like a handshake record with a ClientHello, up to the length
      of its extension block. The record's and the message's own lengths fit the
      buffer, and nothing else is asked of them. */
  ghost predicate HelloShape(b: seq<byte>, a: Anatomy)
    requires a.Valid()
  {
    && 43 <= |b|
    && b[0] == 0x16 && b[5] == 0x01
    && U16(b, 3) + 5 <= |b| && U24(b, 6) + 9 <= |b|
    && At(b, 43, |b|, a.Prologue())
    && 43 + |a.Prologue()| + a.extTotal <= |b|
  }

  /** The extension block opens with other extensions, then a server_name list
      whose first host name is this one. */
  ghost predicate BlockShape(b: seq<byte>, start: nat, end: nat, a: Anatomy, host: seq<byte>)
    requires end <= |b| && a.Valid() && |host| < 65536
  {
    var list := start + |a.UpToNames()|;
    && At(b, start, end, a.UpToNames())
    && start + |EncodeExtensions(a.before)| + 4 + a.extLen <= end
    && list + a.listLen <= end
    && At(b, list, list + a.listLen, a.Names(host))
  }

  ghost predicate Shape(b: seq<byte>, a: Anatomy, host: seq<byte>) {
    && a.Valid() && |host| < 65536
    && HelloShape(b, a)
    && var start := 43 + |a.Prologue()|;
    && BlockShape(b, start, start + a.extTotal, a, host)
  }

  lemma NamesUnfold(n: ServerName, ns: seq<ServerName>)
    requires ValidNames(ns) && n.Valid()
    ensures ValidNames([n] + ns) && EncodeNames([n] + ns) == n.Encode() + EncodeNames(ns)
  {
    assert ([n] + ns)[1..] == ns;
  }

  lemma ExtensionsUnfold(e: Extension, es: seq<Extension>)
    requires ValidExtensions(es) && e.Valid()
    ensures ValidExtensions([e] + es) && EncodeExtensions([e] + es) == e.Encode() + EncodeExtensions(es)
  {
    assert ([e] + es)[1..] == es;
  }

  /** One encoded name at a position is read back field by field. */
  lemma NameAt(b: seq<byte>, pos: nat, end: nat, n: ServerName)
    requires end <= |b| && n.Valid()
    ensures At(b, pos, end, n.Encode()) <==>
              (pos + 3 + |n.name| <= end && b[pos] == n.kind
               && U16(b, pos + 1) == |n.name| && b[pos + 3..pos + 3 + |n.name|] == n.name)
  {
    hide U16, Vec16;
    AppendAt(b, pos, end, [n.kind], Vec16(n.name));
    Vec16At(b, pos + 1, end, n.name);
  }

  lemma Be16At(b: seq<byte>, pos: nat, end: nat, n: nat)
    requires end <= |b| && n < 65536
    ensures At(b, pos, end, Be16(n)) <==> pos + 2 <= end && U16(b, pos) == n
  {
    if pos + 2 <= end {
      assert b[pos..pos + 2] == [b[pos], b[pos + 1]];
    }
  }

  lemma Vec16At(b: seq<byte>, pos: nat, end: nat, x: seq<byte>)
    requires end <= |b| && |x| < 65536
    ensures At(b, pos, end, Vec16(x)) <==>
              pos + 2 + |x| <= end && U16(b, pos) == |x| && b[pos + 2..pos + 2 + |x|] == x
  {
    hide U16, Be16;
    AppendAt(b, pos, end, Be16(|x|), x);
    Be16At(b, pos, end, |x|);
  }

  lemma Vec8At(b: seq<byte>, pos: nat, end: nat, x: seq<byte>)
    requires end <= |b| && |x| < 256
    ensures At(b, pos, end, Vec8(x)) <==>
              pos + 1 + |x| <= end && b[pos] == |x| && b[pos + 1..pos + 1 + |x|] == x
  {
    AppendAt(b, pos, end, [|x|], x);
    if pos + 1 <= end {
      assert b[pos..pos + 1] == [b[pos]];
    }
  }

  lemma {:induction false} NamesSound(b: seq<byte>, pos: nat, end: nat, host: seq<byte>)
      returns (skipped: seq<ServerName>)
    requires pos <= end <= |b| && ScanNames(b, pos, end) == Some(host)
    ensures |host| < 65536
    ensures ValidNames(skipped) && forall n <- skipped :: n.kind != 0
    ensures At(b, pos, end, EncodeNames(skipped) + ServerName(0, host).Encode())
    decreases end - pos
  {
    var next := pos + 3 + U16(b, pos + 1);
    var n := ServerName(b[pos], b[pos + 3..next]);
    NameAt(b, pos, end, n);
    if n.kind == 0 {
      skipped := [];
      assert n == ServerName(0, host);
      assert EncodeNames(skipped) + n.Encode() == n.Encode();
    } else {
      var rest := NamesSound(b, next, end, host);
      skipped := [n] + rest;
      NamesStep(b, pos, end, n, rest, ServerName(0, host));
    }
  }

  lemma {:induction false} NamesComplete(b: seq<byte>, pos: nat, end: nat, skipped: seq<ServerName>, host: seq<byte>)
    requires pos <= end <= |b| && |host| < 65536
    requires ValidNames(skipped) && forall n <- skipped :: n.kind != 0
    requires At(b, pos, end, EncodeNames(skipped) + ServerName(0, host).Encode())
    ensures ScanNames(b, pos, end) == Some(host)
    decreases |skipped|
  {
    hide At, U16, EncodeNames, ScanNames;
    var last := ServerName(0, host);
    if skipped == [] {
      NoNames(last.Encode());
      NameAt(b, pos, end, last);
      ScanHere(b, pos, end, host);
    } else {
      var n, rest := skipped[0], skipped[1..];
      assert skipped == [n] + rest;
      NamesStep(b, pos, end, n, rest, last);
      ScanPast(b, pos, end);
      NamesComplete(b, pos + 3 + |n.name|, end, rest, host);
    }
  }

  lemma NoNames(x: seq<byte>)
    ensures EncodeNames([]) + x == x
  {
  }

  lemma ScanHere(b: seq<byte>, pos: nat, end: nat, host: seq<byte>)
    requires pos + 3 + |host| <= end <= |b| && b[pos] == 0 && U16(b, pos + 1) == |host|
    requires b[pos + 3..pos + 3 + |host|] == host
    ensures ScanNames(b, pos, end) == Some(host)
  {
  }

  lemma ScanPast(b: seq<byte>, pos: nat, end: nat)
    requires pos + 3 <= end <= |b| && b[pos] != 0 && pos + 3 + U16(b, pos + 1) <= end
    ensures ScanNames(b, pos, end) == ScanNames(b, pos + 3 + U16(b, pos + 1), end)
  {
  }

  /** Peeling one name off the front of a list that ends in `last`. */
  lemma NamesStep(b: seq<byte>, pos: nat, end: nat, n: ServerName, rest: seq<ServerName>, last: ServerName)
    requires pos <= end <= |b| && n.Valid() && last.Valid() && ValidNames(rest)
    ensures ValidNames([n] + rest)
    ensures At(b, pos, end, EncodeNames([n] + rest) + last.Encode()) <==>
              (&& pos + 3 + |n.name| <= end && b[pos] == n.kind
               && U16(b, pos + 1) == |n.name| && b[pos + 3..pos + 3 + |n.name|] == n.name
               && At(b, pos + 3 + |n.name|, end, EncodeNames(rest) + last.Encode()))
  {
    hide At, U16, ServerName.Encode;
    NamesUnfold(n, rest);
    var tail := EncodeNames(rest) + last.Encode();
    assert EncodeNames([n] + rest) + last.Encode() == n.Encode() + tail;
    AppendAt(b, pos, end, n.Encode(), tail);
    NameAt(b, pos, end, n);
    assert |n.Encode()| == 3 + |n.name|;
  }

  lemma ExtensionAt(b: seq<byte>, pos: nat, end: nat, e: Extension)
    requires end <= |b| && e.Valid()
    ensures At(b, pos, end, e.Encode()) <==>
              (pos + 4 + |e.data| <= end && U16(b, pos) == e.kind
               && U16(b, pos + 2) == |e.data| && b[pos + 4..pos + 4 + |e.data|] == e.data)
  {
    hide At, U16, Be16, Vec16;
    AppendAt(b, pos, end, Be16(e.kind), Vec16(e.data));
    Be16At(b, pos, end, e.kind);
    Vec16At(b, pos + 2, end, e.data);
  }

  lemma ExtensionsStep(b: seq<byte>, pos: nat, end: nat, e: Extension, rest: seq<Extension>)
    requires pos <= end <= |b| && e.Valid() && ValidExtensions(rest)
    ensures ValidExtensions([e] + rest) && |EncodeExtensions([e] + rest)| == 4 + |e.data| + |EncodeExtensions(rest)|
    ensures At(b, pos, end, EncodeExtensions([e] + rest)) <==>
              (&& pos + 4 + |e.data| <= end && U16(b, pos) == e.kind
               && U16(b, pos + 2) == |e.data| && b[pos + 4..pos + 4 + |e.data|] == e.data
               && At(b, pos + 4 + |e.data|, end, EncodeExtensions(rest)))
  {
    hide At, U16, Extension.Encode;
    ExtensionsUnfold(e, rest);
    AppendAt(b, pos, end, e.Encode(), EncodeExtensions(rest));
    ExtensionAt(b, pos, end, e);
    assert |e.Encode()| == 4 + |e.data|;
  }

  lemma {:induction false} FindSound(b: seq<byte>, pos: nat, end: nat) returns (before: seq<Extension>)
    requires pos <= end <= |b| && FindServerName(b, pos, end).Some?
    ensures ValidExtensions(before) && forall e <- before :: e.kind != 0
    ensures At(b, pos, end, EncodeExtensions(before))
    ensures var q := pos + |EncodeExtensions(before)|;
            q + 4 <= end && U16(b, q) == 0 && FindServerName(b, pos, end) == Some((q + 4, U16(b, q + 2)))
    decreases end - pos
  {
    if U16(b, pos) == 0 {
      before := [];
    } else {
      var next := pos + 4 + U16(b, pos + 2);
      var e := Extension(U16(b, pos), b[pos + 4..next]);
      var rest := FindSound(b, next, end);
      before := [e] + rest;
      ExtensionsStep(b, pos, end, e, rest);
    }
  }

  lemma {:induction false} FindComplete(b: seq<byte>, pos: nat, end: nat, before: seq<Extension>)
    requires pos <= end <= |b|
    requires ValidExtensions(before) && forall e <- before :: e.kind != 0
    requires At(b, pos, end, EncodeExtensions(before))
    ensures FindServerName(b, pos, end) == FindServerName(b, pos + |EncodeExtensions(before)|, end)
    decreases |before|
  {
    hide U16, At, Extension.Encode;
    if before != [] {
      var e, rest := before[0], before[1..];
      assert before == [e] + rest;
      ExtensionsStep(b, pos, end, e, rest);
      FindComplete(b, pos + 4 + |e.data|, end, rest);
    }
  }

  /** The length-prefixed fields in front of the extensions. */
  lemma PrologueAt(b: seq<byte>, a: Anatomy)
    requires a.Valid() && 43 <= |b|
    ensures At(b, 43, |b|, a.Prologue()) <==>
              (var p1 := 44 + |a.sessionId|;
               var p2 := p1 + 2 + |a.cipherSuites|;
               var p3 := p2 + 1 + |a.compression|;
               && p3 + 2 <= |b|
               && b[43] == |a.sessionId| && b[44..p1] == a.sessionId
               && U16(b, p1) == |a.cipherSuites| && b[p1 + 2..p2] == a.cipherSuites
               && b[p2] == |a.compression| && b[p2 + 1..p3] == a.compression
               && U16(b, p3) == a.extTotal)
  {
    hide At, U16, Be16, Vec8, Vec16;
    var p1 := 44 + |a.sessionId|;
    var p2 := p1 + 2 + |a.cipherSuites|;
    var p3 := p2 + 1 + |a.compression|;
    var y, z := Vec8(a.compression) + Be16(a.extTotal), Vec16(a.cipherSuites);
    AppendAt(b, 43, |b|, Vec8(a.sessionId), z + y);
    AppendAt(b, p1, |b|, z, y);
    AppendAt(b, p2, |b|, Vec8(a.compression), Be16(a.extTotal));
    Vec8At(b, 43, |b|, a.sessionId);
    Vec16At(b, p1, |b|, a.cipherSuites);
    Vec8At(b, p2, |b|, a.compression);
    Be16At(b, p3, |b|, a.extTotal);
  }

  /** The bytes that open the server_name extension and its list. */
  lemma UpToNamesAt(b: seq<byte>, start: nat, end: nat, a: Anatomy)
    requires a.Valid() && end <= |b|
    ensures At(b, start, end, a.UpToNames()) <==>
              (var q := start + |EncodeExtensions(a.before)|;
               && At(b, start, end, EncodeExtensions(a.before))
               && q + 6 <= end && U16(b, q) == 0 && U16(b, q + 2) == a.extLen && U16(b, q + 4) == a.listLen)
  {
    hide At, U16, Be16, EncodeExtensions;
    var x, y := EncodeExtensions(a.before), Be16(a.extLen) + Be16(a.listLen);
    var q := start + |x|;
    AppendAt(b, start, end, x, Be16(0) + y);
    AppendAt(b, q, end, Be16(0), y);
    AppendAt(b, q + 2, end, Be16(a.extLen), Be16(a.listLen));
    Be16At(b, q, end, 0);
    Be16At(b, q + 2, end, a.extLen);
    Be16At(b, q + 4, end, a.listLen);
  }

  /** The part of the account that concerns the fields before the extensions. */
  ghost predicate BlockAt(b: seq<byte>, sid: seq<byte>, cs: seq<byte>, cm: seq<byte>, start: nat, end: nat) {
    var p1 := 44 + |sid|;
    var p2 := p1 + 2 + |cs|;
    var p3 := p2 + 1 + |cm|;
    && |sid| < 256 && |cs| < 65536 && |cm| < 256
    && start == p3 + 2 && start <= end <= |b|
    && b[0] == 0x16 && b[5] == 0x01 && U16(b, 3) + 5 <= |b| && U24(b, 6) + 9 <= |b|
    && b[43] == |sid| && b[44..p1] == sid
    && U16(b, p1) == |cs| && b[p1 + 2..p2] == cs
    && b[p2] == |cm| && b[p2 + 1..p3] == cm
    && U16(b, p3) == end - start
  }

  lemma BlockSound(b: seq<byte>) returns (sid: seq<byte>, cs: seq<byte>, cm: seq<byte>)
    requires ExtensionBlock(b).Some?
    ensures BlockAt(b, sid, cs, cm, ExtensionBlock(b).value.0, ExtensionBlock(b).value.1)
  {
    var p1: int := 44 + (b[43] as int);
    var p2 := p1 + 2 + U16(b, p1);
    var p3 := p2 + 1 + b[p2];
    sid, cs, cm := b[44..p1], b[p1 + 2..p2], b[p2 + 1..p3];
  }

  lemma BlockComplete(b: seq<byte>, sid: seq<byte>, cs: seq<byte>, cm: seq<byte>, start: nat, end: nat)
    requires BlockAt(b, sid, cs, cm, start, end)
    ensures ExtensionBlock(b) == Some((start, end))
  {
  }

  /** The list of names inside the extension block. */
  ghost predicate ListAt(b: seq<byte>, start: nat, end: nat, before: seq<Extension>, extLen: nat, listLen: nat,
                         skipped: seq<ServerName>, host: seq<byte>)
    requires start <= end <= |b| && |host| < 65536
  {
    && ValidExtensions(before) && (forall e <- before :: e.kind != 0)
    && ValidNames(skipped) && (forall n <- skipped :: n.kind != 0)
    && At(b, start, end, EncodeExtensions(before))
    && var q := start + |EncodeExtensions(before)|;
    && q + 4 + extLen <= end && q + 6 + listLen <= end
    && U16(b, q) == 0 && U16(b, q + 2) == extLen && U16(b, q + 4) == listLen
    && At(b, q + 6, q + 6 + listLen, EncodeNames(skipped) + ServerName(0, host).Encode())
  }

  lemma ListSound(b: seq<byte>, start: nat, end: nat, host: seq<byte>)
    returns (before: seq<Extension>, extLen: nat, listLen: nat, skipped: seq<ServerName>)
    requires start <= end <= |b| && ScanExtensions(b, start, end) == Some(host)
    ensures |host| < 65536 && extLen < 65536 && listLen < 65536
    ensures ListAt(b, start, end, before, extLen, listLen, skipped, host)
  {
    hide U16, EncodeNames, EncodeExtensions, At, FindServerName, ScanNames;
    before := FindSound(b, start, end);
    var q := start + |EncodeExtensions(before)|;
    extLen, listLen := U16(b, q + 2), U16(b, q + 4);
    skipped := NamesSound(b, q + 6, q + 6 + listLen, host);
  }

  lemma ScanFound(b: seq<byte>, start: nat, q: nat, end: nat, extLen: nat)
    requires start <= end && q + 6 <= end <= |b| && q + 6 + U16(b, q + 4) <= end
    requires FindServerName(b, start, end) == Some((q + 4, extLen))
    ensures ScanExtensions(b, start, end) == ScanNames(b, q + 6, q + 6 + U16(b, q + 4))
  {
  }

  lemma FindHere(b: seq<byte>, q: nat, end: nat, extLen: nat)
    requires q + 4 + extLen <= end <= |b| && U16(b, q) == 0 && U16(b, q + 2) == extLen
    ensures FindServerName(b, q, end) == Some((q + 4, extLen))
  {
  }

  lemma ListFinds(b: seq<byte>, start: nat, end: nat, before: seq<Extension>, extLen: nat)
    requires ValidExtensions(before) && (forall e <- before :: e.kind != 0)
    requires start <= end <= |b| && At(b, start, end, EncodeExtensions(before))
    requires var q := start + |EncodeExtensions(before)|;
             q + 4 + extLen <= end && U16(b, q) == 0 && U16(b, q + 2) == extLen
    ensures FindServerName(b, start, end) == Some((start + |EncodeExtensions(before)| + 4, extLen))
  {
    hide *;
    FindComplete(b, start, end, before);
    FindHere(b, start + |EncodeExtensions(before)|, end, extLen);
  }

  lemma ListComplete(b: seq<byte>, start: nat, end: nat, before: seq<Extension>, extLen: nat, listLen: nat,
                     skipped: seq<ServerName>, host: seq<byte>)
    requires start <= end <= |b| && |host| < 65536
    requires ListAt(b, start, end, before, extLen, listLen, skipped, host)
    ensures ScanExtensions(b, start, end) == Some(host)
  {
    hide EncodeNames, EncodeExtensions, FindServerName, ScanNames, ScanExtensions, U16;
    var q := start + |EncodeExtensions(before)|;
    ListFinds(b, start, end, before, extLen);
    ScanFound(b, start, q, end, extLen);
    NamesComplete(b, q + 6, q + 6 + listLen, skipped, host);
  }

  function BlockStart(a: Anatomy): nat {
    49 + |a.sessionId| + |a.cipherSuites| + |a.compression|
  }

  lemma HelloLocated(b: seq<byte>, a: Anatomy)
    requires a.Valid()
    ensures HelloShape(b, a) <==>
              BlockAt(b, a.sessionId, a.cipherSuites, a.compression, BlockStart(a), BlockStart(a) + a.extTotal)
    ensures 43 + |a.Prologue()| == BlockStart(a)
  {
    hide U16, At, Anatomy.Prologue;
    assert 43 + |a.Prologue()| == BlockStart(a);
    if 43 <= |b| {
      PrologueAt(b, a);
    }
  }

  lemma ListLocated(b: seq<byte>, start: nat, end: nat, a: Anatomy, host: seq<byte>)
    requires a.Valid() && |host| < 65536 && start <= end <= |b|
    ensures BlockShape(b, start, end, a, host) <==>
              ListAt(b, start, end, a.before, a.extLen, a.listLen, a.skipped, host)
  {
    hide U16, At, EncodeExtensions, EncodeNames, Anatomy.UpToNames;
    UpToNamesAt(b, start, end, a);
    assert |a.UpToNames()| == |EncodeExtensions(a.before)| + 6;
  }

  lemma ShapeLocated(b: seq<byte>, a: Anatomy, host: seq<byte>)
    requires a.Valid() && |host| < 65536
    ensures Shape(b, a, host) <==>
              && BlockAt(b, a.sessionId, a.cipherSuites, a.compression, BlockStart(a), BlockStart(a) + a.extTotal)
              && ListAt(b, BlockStart(a), BlockStart(a) + a.extTotal, a.before, a.extLen, a.listLen, a.skipped, host)
  {
    hide BlockShape, BlockAt, ListAt, EncodeExtensions, EncodeNames, U16, U24, At;
    HelloLocated(b, a);
    if HelloShape(b, a) {
      ListLocated(b, BlockStart(a), BlockStart(a) + a.extTotal, a, host);
    }
  }

  /** A returned name always comes with a full account of the buffer. */
  lemma HostSound(b: seq<byte>, host: seq<byte>) returns (a: Anatomy)
    requires HostBytes(b) == Some(host)
    ensures Shape(b, a, host)
  {
    var (start, end) := ExtensionBlock(b).value;
    var sid, cs, cm := BlockSound(b);
    var before, extLen, listLen, skipped := ListSound(b, start, end, host);
    a := Anatomy(sid, cs, cm, end - start, before, extLen, listLen, skipped);
    assert a.Valid() && BlockStart(a) == start;
    ShapeLocated(b, a, host);
  }

  /** Every buffer of that shape yields its host name. */
  lemma HostComplete(b: seq<byte>, a: Anatomy, host: seq<byte>)
    requires Shape(b, a, host)
    ensures HostBytes(b) == Some(host)
  {
    hide HelloShape, BlockShape, BlockAt, ListAt, ScanExtensions, EncodeExtensions, EncodeNames, U16, At,
        ExtensionBlock;
    var start, end := BlockStart(a), BlockStart(a) + a.extTotal;
    ShapeLocated(b, a, host);
    BlockComplete(b, a.sessionId, a.cipherSuites, a.compression, start, end);
    ListComplete(b, start, end, a.before, a.extLen, a.listLen, a.skipped, host);
  }

  /** The scanner returns a name exactly when it is UTF-8 and the buffer has this
      shape with it as the first host name of the first server_name extension. */
  lemma SniExact(b: seq<byte>, host: seq<byte>)
    ensures Sni(b) == Some(host) <==> Utf8(host) && exists a :: Shape(b, a, host)
  {
    if Sni(b) == Some(host) {
      var a := HostSound(b, host);
    }
    if a :| Shape(b, a, host) && Utf8(host) {
      HostComplete(b, a, host);
    }
  }

  // --------------------------------------------------- nesting of the lengths

  /** A length check that the scanner leaves out: the name list has to fit the
      server_name extension it is in, not merely the extension block. */
  predicate ServerNameListFits(b: seq<byte>) {
    var block := ExtensionBlock(b);
    block.Some? ==>
      var found := FindServerName(b, block.value.0, block.value.1);
      found.Some? && found.value.0 + 2 <= block.value.1 ==>
        2 + U16(b, found.value.0) <= found.value.1
  }

  /** Another one: the extension block has to end inside the handshake message, and
      the message inside the record. */
  predicate BlockFits(b: seq<byte>) {
    var block := ExtensionBlock(b);
    block.Some? ==> block.value.1 <= 9 + U24(b, 6) <= 5 + U16(b, 3)
  }

  /** List inside extension, block inside message, message inside record. */
  ghost predicate Nested(b: seq<byte>, a: Anatomy) {
    && 2 + a.listLen <= a.extLen
    && 43 <= |b| && BlockStart(a) + a.extTotal <= 9 + U24(b, 6) <= 5 + U16(b, 3)
  }

  lemma FitsAt(b: seq<byte>, start: nat, end: nat, p: nat, extLen: nat)
    requires start <= end <= |b| && p + 2 <= end
    requires ExtensionBlock(b) == Some((start, end)) && FindServerName(b, start, end) == Some((p, extLen))
    ensures ServerNameListFits(b) <==> 2 + U16(b, p) <= extLen
  {
  }

  lemma ListFound(b: seq<byte>, start: nat, end: nat, before: seq<Extension>, extLen: nat, listLen: nat,
                  skipped: seq<ServerName>, host: seq<byte>)
    requires start <= end <= |b| && |host| < 65536 && ExtensionBlock(b) == Some((start, end))
    requires ListAt(b, start, end, before, extLen, listLen, skipped, host)
    ensures ServerNameListFits(b) <==> 2 + listLen <= extLen
  {
    hide EncodeNames, EncodeExtensions, FindServerName, U16, At, ServerNameListFits;
    ListFinds(b, start, end, before, extLen);
    FitsAt(b, start, end, start + |EncodeExtensions(before)| + 4, extLen);
  }

  lemma ShapeFound(b: seq<byte>, a: Anatomy, host: seq<byte>)
    requires Shape(b, a, host)
    ensures ServerNameListFits(b) <==> 2 + a.listLen <= a.extLen
    ensures ExtensionBlock(b) == Some((BlockStart(a), BlockStart(a) + a.extTotal))
  {
    hide BlockAt, ListAt, EncodeExtensions, EncodeNames, U16, At, ServerNameListFits, HelloShape, BlockShape,
        ExtensionBlock;
    var start, end := BlockStart(a), BlockStart(a) + a.extTotal;
    ShapeLocated(b, a, host);
    BlockComplete(b, a.sessionId, a.cipherSuites, a.compression, start, end);
    ListFound(b, start, end, a.before, a.extLen, a.listLen, a.skipped, host);
  }

  /** A found host name lies inside nested list, extension, block, message and
      record exactly when both checks that are left out would pass. */
  lemma NestedExact(b: seq<byte>, host: seq<byte>)
    ensures (exists a :: Shape(b, a, host) && Nested(b, a)) <==>
              HostBytes(b) == Some(host) && ServerNameListFits(b) && BlockFits(b)
  {
    hide U16, U24, HelloShape, BlockShape, ServerNameListFits, ExtensionBlock, ScanExtensions;
    if HostBytes(b) == Some(host) && ServerNameListFits(b) && BlockFits(b) {
      var a := HostSound(b, host);
      ShapeIsLong(b, a, host);
      ShapeFound(b, a, host);
      assert Nested(b, a);
    }
    if a :| Shape(b, a, host) && Nested(b, a) {
      HostComplete(b, a, host);
      ShapeFound(b, a, host);
    }
  }

  lemma ShapeIsLong(b: seq<byte>, a: Anatomy, host: seq<byte>)
    requires Shape(b, a, host)
    ensures 43 <= |b|
  {
  }

  /** Sixty bytes with these record and message lengths, and one server_name
      extension of this length whose list claims five bytes. */
  function Sample(recordLen: byte, helloLen: byte, extLen: byte): (b: seq<byte>)
    ensures |b| == 60 && b[..9] == [0x16, 3, 1, 0, recordLen, 1, 0, 0, helloLen]
    ensures b[43..] == [0, 0, 0, 0, 0, 11, 0, 0, 0, extLen, 0, 5, 0, 0, 2, 97, 98]
  {
    [0x16, 3, 1, 0, recordLen, 1, 0, 0, helloLen] + seq(34, _ => 0) +
    [0, 0, 0, 0, 0, 11, 0, 0, 0, extLen, 0, 5, 0, 0, 2, 97, 98]
  }

  lemma SampleBytes(recordLen: byte, helloLen: byte, extLen: byte)
    ensures var b := Sample(recordLen, helloLen, extLen);
            && b[0] == 0x16 && U16(b, 3) == recordLen && b[5] == 1 && U24(b, 6) == helloLen
            && b[43] == 0 && U16(b, 44) == 0 && b[46] == 0 && U16(b, 47) == 11
            && U16(b, 49) == 0 && U16(b, 51) == extLen && U16(b, 53) == 5 && b[55] == 0 && U16(b, 56) == 2
            && b[58..60] == [97, 98]
  {
    hide Sample;
    var b := Sample(recordLen, helloLen, extLen);
    assert forall i | 0 <= i < 9 :: b[i] == b[..9][i];
    assert forall i | 43 <= i < 60 :: b[i] == b[43..][i - 43];
  }

  lemma SampleRead(recordLen: byte, helloLen: byte, extLen: byte)
    requires recordLen + 5 <= 60 && helloLen + 9 <= 60 && 53 + extLen <= 60
    ensures var b := Sample(recordLen, helloLen, extLen);
            && ExtensionBlock(b) == Some((49, 60)) && FindServerName(b, 49, 60) == Some((53, extLen))
            && Sni(b) == Some([97, 98])
  {
    hide Sample, U16, U24;
    var b := Sample(recordLen, helloLen, extLen);
    SampleBytes(recordLen, helloLen, extLen);
    assert ExtensionBlock(b) == Some((49, 60));
    FindHere(b, 49, 60, extLen);
    ScanHere(b, 55, 60, [97, 98]);
    assert HostBytes(b) == Some([97, 98]);
  }

  /** The scanner returns a name from outside its extension: the extension is two
      bytes long, and its list claims the five bytes after it. */
  lemma OverrunAccepted()
    ensures Sni(Sample(55, 51, 2)) == Some([97, 98])
    ensures BlockFits(Sample(55, 51, 2)) && !ServerNameListFits(Sample(55, 51, 2))
  {
    hide Sample, U16, U24, ExtensionBlock, FindServerName;
    SampleBytes(55, 51, 2);
    SampleRead(55, 51, 2);
  }

  /** And from outside the record: record and message are empty by their lengths. */
  lemma EmptyRecordAccepted()
    ensures Sni(Sample(0, 0, 7)) == Some([97, 98])
    ensures ServerNameListFits(Sample(0, 0, 7)) && !BlockFits(Sample(0, 0, 7))
  {
    hide Sample, U16, U24, ExtensionBlock, FindServerName;
    SampleBytes(0, 0, 7);
    SampleRead(0, 0, 7);
  }

  // --------------------------------------------------------------- round trip

  datatype HelloExtension =
    | Other(kind: nat, data: seq<byte>)
    | ServerNames(names: seq<ServerName>)
  {
    ghost predicate Valid() {
      match this
      case Other(kind, data) => 0 < kind < 65536 && |data| < 65536
      case ServerNames(names) => ValidNames(names) && |EncodeNames(names)| < 65534
    }

    function OnWire(): Extension
      requires Valid()
    {
      match this
      case Other(kind, data) => Extension(kind, data)
      case ServerNames(names) => Extension(0, Vec16(EncodeNames(names)))
    }
  }

  function OnWire(es: seq<HelloExtension>): (r: seq<Extension>)
    requires forall e <- es :: e.Valid()
    ensures |r| == |es| && ValidExtensions(r)
  {
    if es == [] then [] else [es[0].OnWire()] + OnWire(es[1..])
  }

  datatype ClientHello = ClientHello(
    recordVersion: seq<byte>, versionAndRandom: seq<byte>, sessionId: seq<byte>,
    cipherSuites: seq<byte>, compression: seq<byte>, extensions: seq<HelloExtension>)
  {
    ghost predicate Valid() {
      && |recordVersion| == 2 && |versionAndRandom| == 34
      && |sessionId| < 256 && |cipherSuites| < 65536 && |compression| < 256
      && (forall e <- extensions :: e.Valid())
      && |EncodeExtensions(OnWire(extensions))| < 65536
      && 4 + |Body()| < 65536
    }

    function Body(): seq<byte>
      requires |sessionId| < 256 && |cipherSuites| < 65536 && |compression| < 256
      requires forall e <- extensions :: e.Valid()
      requires |EncodeExtensions(OnWire(extensions))| < 65536
    {
      versionAndRandom +
      (Vec8(sessionId) + (Vec16(cipherSuites) + (Vec8(compression) + Vec16(EncodeExtensions(OnWire(extensions))))))
    }

    /** One handshake record holding the whole ClientHello. */
    function Encode(): seq<byte>
      requires Valid()
    {
      [0x16] + (recordVersion + (Be16(4 + |Body()|) + ([0x01] + (Be24(|Body()|) + Body()))))
    }

    function HostName(): Option<seq<byte>> {
      FirstServerName(extensions)
    }
  }

  /** The first host_name of a list. */
  function FirstHost(ns: seq<ServerName>): Option<seq<byte>> {
    if ns == [] then None
    else if ns[0].kind == 0 then Some(ns[0].name)
    else FirstHost(ns[1..])
  }

  /** The first host_name of the first server_name extension. */
  function FirstServerName(es: seq<HelloExtension>): Option<seq<byte>> {
    if es == [] then None
    else if es[0].ServerNames? then FirstHost(es[0].names)
    else FirstServerName(es[1..])
  }

  lemma {:induction false} NamesRead(b: seq<byte>, pos: nat, end: nat, ns: seq<ServerName>)
    requires ValidNames(ns) && end <= |b| && pos + |EncodeNames(ns)| == end
    requires At(b, pos, end, EncodeNames(ns))
    ensures ScanNames(b, pos, end) == FirstHost(ns)
    decreases |ns|
  {
    if ns != [] {
      var n, rest := ns[0], ns[1..];
      AppendAt(b, pos, end, n.Encode(), EncodeNames(rest));
      NameAt(b, pos, end, n);
      assert |n.Encode()| == 3 + |n.name|;
      if n.kind != 0 {
        ScanPast(b, pos, end);
        NamesRead(b, pos + 3 + |n.name|, end, rest);
      }
    }
  }

  lemma ListRead(b: seq<byte>, pos: nat, end: nat, ns: seq<ServerName>)
    requires ValidNames(ns) && |EncodeNames(ns)| < 65534 && end <= |b|
    requires pos + 2 + |EncodeNames(ns)| <= end && At(b, pos, end, Vec16(EncodeNames(ns)))
    ensures ScanList(b, pos, end) == FirstHost(ns)
  {
    hide EncodeNames, ScanNames, FirstHost, Vec16;
    Vec16At(b, pos, end, EncodeNames(ns));
    NamesRead(b, pos + 2, pos + 2 + |EncodeNames(ns)|, ns);
  }

  lemma FindPast(b: seq<byte>, pos: nat, end: nat)
    requires pos + 4 <= end <= |b| && U16(b, pos) != 0 && pos + 4 + U16(b, pos + 2) <= end
    ensures ScanExtensions(b, pos, end) == ScanExtensions(b, pos + 4 + U16(b, pos + 2), end)
  {
  }

  lemma NothingToFind(b: seq<byte>, end: nat)
    requires end <= |b|
    ensures ScanExtensions(b, end, end) == None && EncodeExtensions([]) == []
  {
  }

  lemma {:induction false} ExtensionsRead(b: seq<byte>, pos: nat, end: nat, es: seq<HelloExtension>)
    requires forall e <- es :: e.Valid()
    requires end <= |b| && pos + |EncodeExtensions(OnWire(es))| == end
    requires At(b, pos, end, EncodeExtensions(OnWire(es)))
    ensures ScanExtensions(b, pos, end) == FirstServerName(es)
    decreases |es|
  {
    hide U16, FindServerName, ScanList, Vec16, EncodeNames, EncodeExtensions, FirstHost;
    if es == [] {
      NothingToFind(b, end);
    } else {
      var e, rest := es[0].OnWire(), es[1..];
      assert OnWire(es) == [e] + OnWire(rest);
      ExtensionsStep(b, pos, end, e, OnWire(rest));
      if es[0].Other? {
        FindPast(b, pos, end);
        ExtensionsRead(b, pos + 4 + |e.data|, end, rest);
      } else {
        FindHere(b, pos, end, |e.data|);
        ListRead(b, pos + 4, end, es[0].names);
      }
    }
  }

  /** The fields of a record with one handshake message in it. */
  lemma RecordAt(b: seq<byte>, v: seq<byte>, body: seq<byte>)
    requires |v| == 2 && 4 + |body| < 65536
    requires At(b, 0, |b|, [0x16] + (v + (Be16(4 + |body|) + ([0x01] + (Be24(|body|) + body)))))
    ensures 9 + |body| <= |b|
    ensures b[0] == 0x16 && b[5] == 0x01 && U16(b, 3) == 4 + |body| && U24(b, 6) == |body|
    ensures At(b, 9, 9 + |body|, body)
  {
    hide U16, Be16, U24, Be24;
    var t6 := Be24(|body|) + body;
    var t5 := [0x01] + t6;
    var t3 := Be16(4 + |body|) + t5;
    AppendAt(b, 0, |b|, [0x16], v + t3);
    AppendAt(b, 1, |b|, v, t3);
    AppendAt(b, 3, |b|, Be16(4 + |body|), t5);
    AppendAt(b, 5, |b|, [0x01], t6);
    AppendAt(b, 6, |b|, Be24(|body|), body);
    Be16At(b, 3, |b|, 4 + |body|);
    assert b[0] == b[0..1][0] && b[5] == b[5..6][0];
    Be24At(b, 6, |body|);
  }

  lemma Be24At(b: seq<byte>, pos: nat, n: nat)
    requires n < 16777216 && At(b, pos, |b|, Be24(n))
    ensures U24(b, pos) == n
  {
    assert b[pos] == b[pos..pos + 3][0] && b[pos + 1] == b[pos..pos + 3][1] && b[pos + 2] == b[pos..pos + 3][2];
  }

  /** The fields of a ClientHello body that starts at byte 9. */
  lemma FieldsAt(b: seq<byte>, end: nat, vr: seq<byte>, sid: seq<byte>, cs: seq<byte>, cm: seq<byte>, x: seq<byte>)
    requires |vr| == 34 && |sid| < 256 && |cs| < 65536 && |cm| < 256 && |x| < 65536 && end <= |b|
    requires At(b, 9, end, vr + (Vec8(sid) + (Vec16(cs) + (Vec8(cm) + Vec16(x)))))
    requires b[0] == 0x16 && b[5] == 0x01 && U16(b, 3) + 5 <= |b| && U24(b, 6) + 9 <= |b|
    ensures var start := 49 + |sid| + |cs| + |cm|;
            BlockAt(b, sid, cs, cm, start, start + |x|) && At(b, start, start + |x|, x)
  {
    hide U16, Be16, U24, Vec8, Vec16, At;
    var p1 := 44 + |sid|;
    var p2 := p1 + 2 + |cs|;
    var p3 := p2 + 1 + |cm|;
    var c := Vec8(cm) + Vec16(x);
    var d := Vec16(cs) + c;
    AppendAt(b, 9, end, vr, Vec8(sid) + d);
    AppendAt(b, 43, end, Vec8(sid), d);
    AppendAt(b, p1, end, Vec16(cs), c);
    AppendAt(b, p2, end, Vec8(cm), Vec16(x));
    Vec8At(b, 43, end, sid);
    Vec16At(b, p1, end, cs);
    Vec8At(b, p2, end, cm);
    Vec16At(b, p3, end, x);
    AtSlice(b, p3 + 2, x);
  }

  lemma AtSlice(b: seq<byte>, pos: nat, x: seq<byte>)
    requires pos + |x| <= |b| && b[pos..pos + |x|] == x
    ensures At(b, pos, pos + |x|, x)
  {
  }

  lemma BlockRead(b: seq<byte>, start: nat, end: nat, es: seq<HelloExtension>)
    requires (forall e <- es :: e.Valid()) && start <= end <= |b| && ExtensionBlock(b) == Some((start, end))
    requires start + |EncodeExtensions(OnWire(es))| == end && At(b, start, end, EncodeExtensions(OnWire(es)))
    ensures HostBytes(b) == FirstServerName(es)
  {
    hide EncodeExtensions, OnWire, FirstServerName, ScanExtensions, At;
    ExtensionsRead(b, start, end, es);
  }

  lemma EncodedRead(h: ClientHello, b: seq<byte>)
    requires h.Valid() && At(b, 0, |b|, h.Encode())
    ensures HostBytes(b) == h.HostName()
  {
    hide EncodeExtensions, OnWire, FirstServerName, HostBytes, U16, U24, Vec8, Vec16, Be16, Be24, At;
    var x := EncodeExtensions(OnWire(h.extensions));
    RecordAt(b, h.recordVersion, h.Body());
    FieldsAt(b, 9 + |h.Body()|, h.versionAndRandom, h.sessionId, h.cipherSuites, h.compression, x);
    var start := 49 + |h.sessionId| + |h.cipherSuites| + |h.compression|;
    BlockComplete(b, h.sessionId, h.cipherSuites, h.compression, start, start + |x|);
    BlockRead(b, start, start + |x|, h.extensions);
  }

  /** An encoding that has not arrived completely shows no name. */
  lemma CutHelloHidden(h: ClientHello, n: nat)
    requires h.Valid() && n < |h.Encode()|
    ensures Sni(h.Encode()[..n]) == None
  {
    var b := h.Encode();
    RecordAt(b, h.recordVersion, h.Body());
    EncodedLength(h);
    if n >= 43 {
      assert U16(b[..n], 3) == U16(b, 3);
    }
  }

  lemma EncodedLength(h: ClientHello)
    requires h.Valid()
    ensures |h.Encode()| == 9 + |h.Body()| && At(h.Encode(), 0, |h.Encode()|, h.Encode())
  {
  }

  /** Scanning inverts encoding, whatever follows the record in the buffer. */
  lemma RoundTrip(h: ClientHello, rest: seq<byte>)
    requires h.Valid()
    ensures HostBytes(h.Encode() + rest) == h.HostName()
    ensures Sni(h.Encode() + rest) ==
            (if h.HostName().Some? then FromUtf8(h.HostName().value) else None)
  {
    EncodedRead(h, h.Encode() + rest);
  }

  /** A name in ASCII is returned for every encoded ClientHello that carries it. */
  lemma AsciiNameFound(h: ClientHello, rest: seq<byte>, host: seq<byte>)
    requires h.Valid() && h.HostName() == Some(host) && forall b <- host :: b < 0x80
    ensures Sni(h.Encode() + rest) == Some(host)
  {
    RoundTrip(h, rest);
    AsciiIsText(host);
  }
}
