/**
  A client connection is peeked at through a buffered reader and then handed on:
  to a TCP backend, to TLS termination, to a redirect, or to plain HTTP. The
  module follows the bytes, for every way the client's stream may arrive in
  chunks.
*/
module Tunnel {
  import opened Common
  import Sni

  /** Reads deliver at least one byte until the end of the stream. */
  ghost predicate Delivering(chunks: seq<seq<byte>>) {
    forall i | 0 <= i < |chunks| :: chunks[i] != []
  }

  // ------------------------------------------------------- dispatch decisions

  datatype Route =
    | Forward(backend: string)   // raw TCP tunnel
    | Unreachable                // tunnel whose backend refuses the connection
    | TerminateTls
    | RedirectToHttps
    | ServeHttp

  /** What the database and the network answer. */
  datatype World = World(plainRule: Option<string>, sniRule: seq<byte> -> Option<string>, reachable: string -> bool)

  function LooksTls(peeked: seq<byte>): bool {
    peeked != [] && peeked[0] == 0x16
  }

  function TunnelRule(peeked: seq<byte>, w: World): Option<string> {
    if !LooksTls(peeked) then w.plainRule
    else
      var name := Sni.Sni(peeked);
      if name.Some? then w.sniRule(name.value) else None
  }

  function RouteOf(peeked: seq<byte>, w: World, forceHttps: bool): Route {
    var rule := TunnelRule(peeked, w);
    if rule.Some? then (if w.reachable(rule.value) then Forward(rule.value) else Unreachable)
    else if LooksTls(peeked) then TerminateTls
    else if forceHttps then RedirectToHttps
    else ServeHttp
  }

  // ------------------------------------------------------ the buffered reader

  /** The first CR LF CR LF inside a piece of the stream. */
  predicate TerminatorAt(s: seq<byte>, p: nat) {
    p + 4 <= |s| && s[p] == 13 && s[p + 1] == 10 && s[p + 2] == 13 && s[p + 3] == 10
  }

  function FindTerminator(s: seq<byte>): (r: Option<nat>)
    ensures r.Some? ==> TerminatorAt(s, r.value) && forall q | 0 <= q < r.value :: !TerminatorAt(s, q)
    ensures r.None? ==> forall q: nat :: !TerminatorAt(s, q)
  {
    FindFrom(s, 0)
  }

  function FindFrom(s: seq<byte>, p: nat): (r: Option<nat>)
    ensures r.Some? ==> p <= r.value && TerminatorAt(s, r.value) && forall q | p <= q < r.value :: !TerminatorAt(s, q)
    ensures r.None? ==> forall q: nat | p <= q :: !TerminatorAt(s, q)
    decreases |s| - p
  {
    if p + 4 > |s| then None
    else if TerminatorAt(s, p) then Some(p)
    else FindFrom(s, p + 1)
  }

  /** What the header loop collects from these chunks. */
  function Collected(chunks: seq<seq<byte>>): seq<byte> {
    if chunks == [] then []
    else
      var p := FindTerminator(chunks[0]);
      if p.Some? then chunks[0][..p.value + 4] else chunks[0] + Collected(chunks[1..])
  }

  /** What is left in the buffer when that loop stops. */
  function LeftOver(chunks: seq<seq<byte>>): seq<byte> {
    if chunks == [] then []
    else
      var p := FindTerminator(chunks[0]);
      if p.Some? then chunks[0][p.value + 4..] else LeftOver(chunks[1..])
  }

  class BufReader {
    var buffer: seq<byte>
    var source: seq<seq<byte>>

    constructor (chunks: seq<seq<byte>>)
      requires Delivering(chunks)
      ensures Chunks() == chunks && Valid()
    {
      buffer, source := [], chunks;
    }

    ghost predicate Valid()
      reads this
    {
      Delivering(source)
    }

    /** Everything the client has sent and nobody has taken yet. */
    ghost function Chunks(): (r: seq<seq<byte>>)
      reads this
    {
      (if buffer == [] then [] else [buffer]) + source
    }

    ghost function Stream(): seq<byte>
      reads this
    {
      Flatten(Chunks())
    }

    /** Read more only when the buffer is empty. */
    method FillBuf() returns (available: seq<byte>)
      requires Valid()
      modifies this
      ensures Valid() && Chunks() == old(Chunks()) && available == buffer
      ensures available == if old(Chunks()) == [] then [] else old(Chunks())[0]
    {
      if buffer == [] && source != [] {
        buffer, source := source[0], source[1..];
      }
      available := buffer;
    }

    method Consume(n: nat)
      requires Valid() && n <= |buffer|
      modifies this
      ensures Valid() && source == old(source) && buffer == old(buffer)[n..]
    {
      buffer := buffer[n..];
    }

    /** Forward what was buffered, then the rest of the stream as it comes. */
    method CopyAll() returns (sent: seq<byte>)
      requires Valid()
      modifies this
      ensures sent == old(Stream()) && Stream() == [] && Valid()
    {
      StreamParts(buffer, source);
      sent := buffer;
      buffer := [];
      while source != []
        invariant Valid() && buffer == []
        invariant sent + Flatten(source) == old(Stream())
        decreases |source|
      {
        sent := sent + source[0];
        source := source[1..];
      }
    }

    /** One round of the header loop: take what is available, up to the first
        terminator in it. */
    method TakePiece() returns (piece: seq<byte>, last: bool)
      requires Valid()
      modifies this
      ensures Valid() && piece + Stream() == old(Stream())
      ensures old(Chunks()) == [] ==> piece == [] && last && buffer == []
      ensures old(Chunks()) != [] ==>
                var p := FindTerminator(old(Chunks())[0]);
                && last == p.Some?
                && piece == (if p.Some? then old(Chunks())[0][..p.value + 4] else old(Chunks())[0])
                && (p.None? ==> Chunks() == old(Chunks())[1..])
                && buffer == (if p.Some? then old(Chunks())[0][p.value + 4..] else [])
    {
      hide FindTerminator;
      var available := FillBuf();
      if available == [] { return [], true; }
      StreamParts(buffer, source);
      var pos := FindTerminator(available);
      var len := if pos.Some? then pos.value + 4 else |available|;
      piece := available[..len];
      Consume(len);
      StreamParts(buffer, source);
      assert available == available[..len] + available[len..];
      return piece, pos.Some?;
    }

    /** The loop in front of the redirect. */
    method CollectHeaders() returns (headers: seq<byte>)
      requires Valid()
      modifies this
      ensures headers == Collected(old(Chunks()))
      ensures headers + Stream() == old(Stream()) && Valid() && buffer == LeftOver(old(Chunks()))
    {
      hide FindTerminator;
      headers := [];
      var done := false;
      while !done
        invariant Valid()
        invariant headers + Stream() == old(Stream())
        invariant !done ==> headers + Collected(Chunks()) == Collected(old(Chunks()))
        invariant done ==> headers == Collected(old(Chunks())) && buffer == LeftOver(old(Chunks()))
        invariant !done ==> LeftOver(Chunks()) == LeftOver(old(Chunks()))
        decreases !done, |Chunks()|
      {
        ghost var before, taken := Chunks(), headers;
        ghost var stream := Stream();
        var piece;
        piece, done := TakePiece();
        headers := headers + piece;
        assert headers + Stream() == taken + stream;
        if !done {
          assert Collected(before) == piece + Collected(Chunks());
          assert headers + Collected(Chunks()) == taken + Collected(before);
        }
      }
    }

    /** Give the buffer up, with what is in it. */
    method IntoInner() returns (dropped: seq<byte>)
      requires Valid()
      modifies this
      ensures Valid() && dropped == old(buffer) && dropped + Stream() == old(Stream())
    {
      StreamParts(buffer, source);
      dropped := buffer;
      buffer := [];
      StreamParts(buffer, source);
    }

    /** Peek, look for a tunnel rule, and hand the connection on. A tunnel sends
        everything; TLS and HTTP get the reader itself, so nothing has been taken
        from it; the redirect and a refused backend drop what is buffered. */
    method Serve(w: World, forceHttps: bool) returns (route: Route, sent: seq<byte>, dropped: seq<byte>)
      requires Valid()
      modifies this
      ensures route == RouteOf(if old(Chunks()) == [] then [] else old(Chunks())[0], w, forceHttps)
      ensures route.Forward? ==> sent == old(Stream()) && Stream() == []
      ensures route.Unreachable? ==> sent == [] && dropped + Stream() == old(Stream())
      ensures route.TerminateTls? || route.ServeHttp? ==> sent == [] && Stream() == old(Stream())
      ensures route.RedirectToHttps? ==>
                && sent == [] && dropped == LeftOver(old(Chunks()))
                && Collected(old(Chunks())) + dropped + Stream() == old(Stream())
      ensures !route.RedirectToHttps? && !route.Unreachable? ==> dropped == []
      ensures Routed(old(Stream()), w, forceHttps, route)
    {
      FirstByteDecides(Chunks(), w, forceHttps);
      var peeked := FillBuf();
      var isTls := LooksTls(peeked);
      sent := [];
      if !isTls {
        if w.plainRule.Some? {
          if !w.reachable(w.plainRule.value) {
            dropped := IntoInner();
            return Unreachable, [], dropped;
          }
          sent := CopyAll();
          return Forward(w.plainRule.value), sent, [];
        }
      }
      if isTls {
        var hello := FillBuf();
        var name := Sni.ExtractSni(hello);
        if name.Some? {
          var rule := w.sniRule(name.value);
          if rule.Some? {
            if !w.reachable(rule.value) {
              dropped := IntoInner();
              return Unreachable, [], dropped;
            }
            sent := CopyAll();
            return Forward(rule.value), sent, [];
          }
        }
        return TerminateTls, [], [];
      }
      if forceHttps {
        var headers := CollectHeaders();
        dropped := IntoInner();
        return RedirectToHttps, [], dropped;
      }
      return ServeHttp, [], [];
    }
  }

  lemma StreamParts(buffer: seq<byte>, source: seq<seq<byte>>)
    ensures Flatten((if buffer == [] then [] else [buffer]) + source) == buffer + Flatten(source)
  {
    if buffer != [] {
      assert ([buffer] + source)[1..] == source;
    } else {
      assert [] + source == source;
    }
  }

  // --------------------------------------------------- dispatch by first byte

  /** A stream that opens with a TLS handshake record is never redirected or served
      as plain HTTP, whatever rules there are for plain streams: it goes to a
      backend that some server name has a rule for, or to TLS termination. Any
      other stream goes to the backend of the plain rule, if there is one and the
      backend answers; without one, the port's flag says whether it is redirected. */
  ghost predicate Routed(stream: seq<byte>, w: World, forceHttps: bool, route: Route) {
    if stream != [] && stream[0] == 22 then
      route == TerminateTls || exists name :: Backend(w.sniRule(name), w, route)
    else if w.plainRule != None then Backend(w.plainRule, w, route)
    else route == (if forceHttps then RedirectToHttps else ServeHttp)
  }

  predicate Backend(rule: Option<string>, w: World, route: Route) {
    && rule.Some?
    && (w.reachable(rule.value) ==> route == Forward(rule.value))
    && (!w.reachable(rule.value) ==> route == Unreachable)
  }

  /** That is decided by the first byte of the stream, however it arrives. */
  lemma FirstByteDecides(chunks: seq<seq<byte>>, w: World, forceHttps: bool)
    requires Delivering(chunks)
    ensures Routed(Flatten(chunks), w, forceHttps, RouteOf(if chunks == [] then [] else chunks[0], w, forceHttps))
  {
    hide Sni.Sni;
    if chunks != [] && LooksTls(chunks[0]) {
      var name := Sni.Sni(chunks[0]);
      if name.Some? && w.sniRule(name.value).Some? {
        assert Backend(w.sniRule(name.value), w, RouteOf(chunks[0], w, forceHttps));
      }
    }
  }

  // ------------------------------------------------- dispatch by server name

  /** A client that opens with this ClientHello and whose name has a tunnel rule
      gets the tunnel if and only if the first read brings the whole hello;
      otherwise the proxy terminates the TLS connection itself. */
  lemma HelloRouted(h: Sni.ClientHello, rest: seq<byte>, n: nat, w: World, forceHttps: bool, host: seq<byte>,
      backend: string)
    requires h.Valid() && 0 < n <= |h.Encode() + rest|
    requires h.HostName() == Some(host) && Sni.Utf8(host) && w.sniRule(host) == Some(backend)
    ensures var route := RouteOf((h.Encode() + rest)[..n], w, forceHttps);
            && (route == (if w.reachable(backend) then Forward(backend) else Unreachable) <==> n >= |h.Encode()|)
            && (route == TerminateTls <==> n < |h.Encode()|)
  {
    hide Sni.Sni, Sni.Utf8;
    var b := h.Encode();
    assert (b + rest)[..n][0] == b[0] == 0x16;
    if n < |b| {
      assert (b + rest)[..n] == b[..n];
      Sni.CutHelloHidden(h, n);
    } else {
      assert (b + rest)[..n] == b + rest[..n - |b|];
      Sni.RoundTrip(h, rest[..n - |b|]);
    }
  }

  /** A whole hello without such a rule goes to TLS termination as well. */
  lemma HelloWithoutRule(h: Sni.ClientHello, rest: seq<byte>, w: World, forceHttps: bool)
    requires h.Valid() && (h.HostName().Some? && Sni.Utf8(h.HostName().value) ==> w.sniRule(h.HostName().value).None?)
    ensures RouteOf(h.Encode() + rest, w, forceHttps) == TerminateTls
  {
    hide Sni.Sni, Sni.Utf8;
    assert (h.Encode() + rest)[0] == 0x16;
    Sni.RoundTrip(h, rest);
  }

  // ----------------------------------------- where the header loop stops

  /** The four bytes from p on arrive in one chunk. */
  predicate InOneChunk(chunks: seq<seq<byte>>, p: nat) {
    chunks != [] &&
    if p < |chunks[0]| then p + 4 <= |chunks[0]| else InOneChunk(chunks[1..], p - |chunks[0]|)
  }

  /** The loop takes the whole stream, or ends in a terminator of its own. */
  lemma {:induction false} CollectedIsPrefix(chunks: seq<seq<byte>>)
    ensures Collected(chunks) <= Flatten(chunks)
    ensures Collected(chunks) == Flatten(chunks) ||
              (|Collected(chunks)| >= 4 && Collected(chunks)[|Collected(chunks)| - 4..] == [13, 10, 13, 10])
  {
    if chunks != [] {
      CollectedIsPrefix(chunks[1..]);
      var c, rest := chunks[0], Flatten(chunks[1..]);
      var p := FindTerminator(c);
      if p.Some? {
        assert (c + rest)[..p.value + 4] == c[..p.value + 4];
      } else {
        var taken := Collected(chunks[1..]);
        assert (c + rest)[..|c| + |taken|] == c + rest[..|taken|];
        if |taken| >= 4 { assert (c + taken)[|c| + |taken| - 4..] == taken[|taken| - 4..]; }
      }
    }
  }

  /** It goes no further than the first blank line that arrives in one chunk. */
  lemma {:induction false} BlankLineStops(chunks: seq<seq<byte>>, k: nat, i: nat)
    requires k < |chunks| && i + 4 <= |chunks[k]| && chunks[k][i..i + 4] == [13, 10, 13, 10]
    ensures |Collected(chunks)| <= |Flatten(chunks[..k])| + i + 4
  {
    hide FindTerminator;
    if k == 0 {
      var c := chunks[0];
      assert c[i..i + 4][0] == c[i] && c[i..i + 4][1] == c[i + 1] && c[i..i + 4][2] == c[i + 2]
          && c[i..i + 4][3] == c[i + 3];
      assert TerminatorAt(c, i);
    } else {
      BlankLineStops(chunks[1..], k - 1, i);
      assert chunks[..k][1..] == chunks[1..][..k - 1];
    }
  }

  lemma TerminatorShift(c: seq<byte>, rest: seq<byte>, q: nat)
    ensures TerminatorAt(c + rest, |c| + q) <==> TerminatorAt(rest, q)
    ensures q + 4 <= |c| ==> (TerminatorAt(c + rest, q) <==> TerminatorAt(c, q))
  {
    var s := c + rest;
    if |c| + q + 4 <= |s| {
      assert s[|c| + q] == rest[q] && s[|c| + q + 1] == rest[q + 1] && s[|c| + q + 2] == rest[q + 2]
          && s[|c| + q + 3] == rest[q + 3];
    }
  }

  lemma FindIs(s: seq<byte>, p: nat)
    requires TerminatorAt(s, p) && forall q | 0 <= q < p :: !TerminatorAt(s, q)
    ensures FindTerminator(s) == Some(p)
  {
    var r := FindTerminator(s);
    assert r.Some? ==> TerminatorAt(s, r.value);
  }

  /** Collection stops at the end of the request headers, that is right after the
      first blank line of the stream, exactly when that blank line arrives within
      one chunk or is the end of the stream. Without one the loop takes all. */
  lemma {:induction false} StopsAtHeaders(chunks: seq<seq<byte>>)
    ensures var first := FindTerminator(Flatten(chunks));
            && (first.None? ==> Collected(chunks) == Flatten(chunks))
            && (first.Some? ==>
                  (|Collected(chunks)| == first.value + 4 <==>
                     InOneChunk(chunks, first.value) || first.value + 4 == |Flatten(chunks)|))
  {
    hide FindTerminator;
    if chunks != [] {
      var c, rest := chunks[0], chunks[1..];
      var tail := Flatten(rest);
      var stream := c + tail;
      var here, first := FindTerminator(c), FindTerminator(stream);
      CollectedIsPrefix(rest);
      StopsAtHeaders(rest);
      if here.Some? {
        var q := here.value;
        TerminatorShift(c, tail, q);
        forall k | 0 <= k < q ensures !TerminatorAt(stream, k) {
          TerminatorShift(c, tail, k);
        }
        FindIs(stream, q);
      } else if first.None? {
        NoneInTail(c, tail);
      } else {
        var p := first.value;
        TerminatorShift(c, tail, p);
        assert p + 4 > |c|;
        if p >= |c| {
          FirstInTail(c, tail, p);
        }
      }
    }
  }

  lemma NoneInTail(c: seq<byte>, tail: seq<byte>)
    requires FindTerminator(c + tail).None?
    ensures FindTerminator(tail).None?
  {
    var r := FindTerminator(tail);
    if r.Some? {
      TerminatorShift(c, tail, r.value);
      assert false;
    }
  }

  lemma FirstInTail(c: seq<byte>, tail: seq<byte>, p: nat)
    requires p >= |c| && FindTerminator(c + tail) == Some(p)
    ensures FindTerminator(tail) == Some(p - |c|)
  {
    TerminatorShift(c, tail, p - |c|);
    forall q | 0 <= q < p - |c| ensures !TerminatorAt(tail, q) {
      TerminatorShift(c, tail, q);
      assert !TerminatorAt(c + tail, |c| + q);
    }
    FindIs(tail, p - |c|);
  }

  /** A blank line split over two reads is missed: the loop swallows the byte
      after it as well. */
  lemma SplitTerminatorMissed()
    ensures var chunks := [[13, 10], [13, 10, 65]];
            Collected(chunks) == [13, 10, 13, 10, 65] && FindTerminator(Flatten(chunks)) == Some(0)
  {
    var chunks: seq<seq<byte>> := [[13, 10], [13, 10, 65]];
    var none: seq<seq<byte>> := [];
    assert chunks[1..] == [chunks[1]] && [chunks[1]][1..] == none;
    assert FindTerminator(chunks[0]).None? && FindTerminator(chunks[1]).None?;
    assert Collected([chunks[1]]) == chunks[1] + [] == chunks[1];
    assert Flatten([chunks[1]]) == chunks[1] + [] == chunks[1];
    assert Flatten(chunks) == [13, 10] + [13, 10, 65] == [13, 10, 13, 10, 65];
  }
}
