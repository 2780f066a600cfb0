/**
  Finding the zone that a full domain name belongs to, by asking the provider
  about its suffixes, longest first.
*/
module ZoneSearch {
  import opened Common

  function Labels(domain: string): (r: seq<string>)
    ensures |r| > 0
  {
    Split(domain, '.')
  }

  function Suffix(labels: seq<string>, i: nat): string
    requires i <= |labels|
  {
    Join(labels[i..], '.')
  }

  // ------------------------------------------------------------------ Aliyun

  datatype ZoneReply = Exists | NotExist | Broken

  datatype SearchError = NotFound | ProviderError

  /** The host part that goes with the zone at label i. */
  function HostPart(labels: seq<string>, i: nat): string
    requires i <= |labels|
  {
    if i == 0 then "@" else Join(labels[..i], '.')
  }

  /** Suffixes from the i-th label on, never fewer than two labels. */
  function Search(labels: seq<string>, ask: string -> ZoneReply, i: nat): (r: Result<nat, SearchError>)
    ensures r.Ok? ==> i <= r.value < |labels|
    decreases |labels| - i
  {
    if i + 1 >= |labels| then Err(NotFound)
    else match ask(Suffix(labels, i))
      case Exists => Ok(i)
      case Broken => Err(ProviderError)
      case NotExist => Search(labels, ask, i + 1)
  }

  method ResolveDomainName(domain: string, ask: string -> ZoneReply) returns (r: Result<(string, string), SearchError>)
    ensures var s := Search(Labels(domain), ask, 0);
            r == if s.Ok? then Ok((Suffix(Labels(domain), s.value), HostPart(Labels(domain), s.value)))
                else Err(s.error)
  {
    var parts := Split(domain, '.');
    var i := 0;
    while i + 1 < |parts|
      invariant 0 <= i
      invariant Search(parts, ask, i) == Search(parts, ask, 0)
      decreases |parts| - i
    {
      var candidate := Join(parts[i..], '.');
      var rr := if i == 0 then "@" else Join(parts[..i], '.');
      var reply := ask(candidate);
      if reply == Exists { return Ok((candidate, rr)); }
      if reply == Broken { return Err(ProviderError); }
      i := i + 1;
    }
    return Err(NotFound);
  }

  /** A zone of the name: a suffix of at least two labels that exists. */
  predicate ZoneAt(labels: seq<string>, ask: string -> ZoneReply, i: nat) {
    i + 1 < |labels| && ask(Suffix(labels, i)) == Exists
  }

  lemma {:induction false} SearchExact(labels: seq<string>, ask: string -> ZoneReply, i: nat)
    ensures var s := Search(labels, ask, i);
            && (forall k :: s == Ok(k) <==>
                  i <= k && ZoneAt(labels, ask, k) && forall j | i <= j < k :: ask(Suffix(labels, j)) == NotExist)
            && (s == Err(NotFound) <==> forall j | i <= j && j + 1 < |labels| :: ask(Suffix(labels, j)) == NotExist)
            && (s == Err(ProviderError) <==>
                  exists k | i <= k && k + 1 < |labels| ::
                    ask(Suffix(labels, k)) == Broken && forall j | i <= j < k :: ask(Suffix(labels, j)) == NotExist)
    decreases |labels| - i
  {
    hide Suffix;
    if i + 1 < |labels| && ask(Suffix(labels, i)) == NotExist {
      SearchExact(labels, ask, i + 1);
    }
  }

  /** The host part and the zone rebuild the name. */
  lemma HostAndZone(domain: string, i: nat)
    requires i < |Labels(domain)|
    ensures i == 0 ==> Suffix(Labels(domain), i) == domain
    ensures i > 0 ==> HostPart(Labels(domain), i) + ("." + Suffix(Labels(domain), i)) == domain
  {
    var labels := Labels(domain);
    JoinInvertsSplit(domain, '.');
    if i == 0 {
      assert labels[0..] == labels;
    } else {
      JoinCut(labels, i, '.');
    }
  }

  /** The search returns the longest existing suffix of at least two labels, with
      the host part that rebuilds the name; it reports that there is none exactly
      when the provider said so of every such suffix, and any other failure
      exactly when it met that failure first. */
  lemma LongestZone(domain: string, ask: string -> ZoneReply)
    ensures var labels, s := Labels(domain), Search(Labels(domain), ask, 0);
            && (s == Err(NotFound) <==> forall j: nat | j + 1 < |labels| :: ask(Suffix(labels, j)) == NotExist)
            && (s == Err(ProviderError) <==>
                  exists k: nat | k + 1 < |labels| ::
                    ask(Suffix(labels, k)) == Broken && forall j | 0 <= j < k :: ask(Suffix(labels, j)) == NotExist)
            && (s.Ok? ==>
                  && ZoneAt(labels, ask, s.value)
                  && (forall j | 0 <= j < s.value :: ask(Suffix(labels, j)) == NotExist)
                  && (s.value == 0 ==> HostPart(labels, 0) == "@" && Suffix(labels, 0) == domain)
                  && (s.value > 0 ==> HostPart(labels, s.value) + ("." + Suffix(labels, s.value)) == domain))
  {
    SearchExact(Labels(domain), ask, 0);
    if Search(Labels(domain), ask, 0).Ok? {
      HostAndZone(domain, Search(Labels(domain), ask, 0).value);
    }
  }

  // -------------------------------------------------------------- Cloudflare

  /** A lookup by name: it may not go through, come back unreadable, list no
      zone, or list one. */
  datatype Listing = SendError | BadJson | NoZones | Zone(id: string)

  /** Record updates look the zone up from the name itself down to two labels. */
  function RecordZone(labels: seq<string>, ask: string -> Listing, i: nat): Result<string, SearchError>
    decreases |labels| - i
  {
    if i + 1 >= |labels| then Err(NotFound)
    else match ask(Suffix(labels, i))
      case SendError => Err(ProviderError)
      case Zone(id) => if id != "" then Ok(id) else RecordZone(labels, ask, i + 1)
      case _ => RecordZone(labels, ask, i + 1)
  }

  /** Challenge records look it up from the second label down to the last. */
  function TxtZone(labels: seq<string>, ask: string -> Listing, i: nat): Result<string, SearchError>
    decreases |labels| - i
  {
    if i >= |labels| then Err(NotFound)
    else match ask(Suffix(labels, i))
      case SendError => Err(ProviderError)
      case BadJson => Err(ProviderError)
      case NoZones => TxtZone(labels, ask, i + 1)
      case Zone(id) => if id == "" then Err(NotFound) else Ok(id)
  }

  /** The challenge search by the first lookup that does not say "no zone": a failed
      one ends it, and so does a zone, even one whose id is empty. */
  lemma {:induction false} TxtZoneFirst(labels: seq<string>, ask: string -> Listing, i: nat, k: nat)
    requires i <= k <= |labels| && forall j | i <= j < k :: ask(Suffix(labels, j)) == NoZones
    requires k < |labels| ==> ask(Suffix(labels, k)) != NoZones
    ensures TxtZone(labels, ask, i) ==
              if k == |labels| || ask(Suffix(labels, k)) == Zone("") then Err(NotFound)
              else match ask(Suffix(labels, k)) case Zone(id) => Ok(id) case _ => Err(ProviderError)
    decreases k - i
  {
    hide Suffix;
    if i < k {
      TxtZoneFirst(labels, ask, i + 1, k);
    }
  }

  /** The record search by the first lookup that finds a zone with an id or does not
      go through; a reply that cannot be read is passed over, and so is a zone
      without an id, and the last label is never asked about. */
  lemma {:induction false} RecordZoneFirst(labels: seq<string>, ask: string -> Listing, i: nat, k: nat)
    requires i <= k && k + 1 <= |labels|
    requires forall j | i <= j < k :: ask(Suffix(labels, j)) in {NoZones, BadJson, Zone("")}
    requires k + 1 < |labels| ==> ask(Suffix(labels, k)) !in {NoZones, BadJson, Zone("")}
    ensures RecordZone(labels, ask, i) ==
              if k + 1 == |labels| then Err(NotFound)
              else match ask(Suffix(labels, k)) case Zone(id) => Ok(id) case _ => Err(ProviderError)
    decreases k - i
  {
    hide Suffix;
    if i < k {
      RecordZoneFirst(labels, ask, i + 1, k);
    }
  }

  /** The loop that both creating and deleting a challenge record start with. */
  method FindTxtZone(domain: string, ask: string -> Listing) returns (r: Result<string, SearchError>)
    ensures r == TxtZone(Labels(domain), ask, 1)
  {
    var parts := Split(domain, '.');
    var zoneId := "";
    var i := 1;
    while i < |parts|
      invariant 1 <= i
      invariant zoneId == "" && TxtZone(parts, ask, i) == TxtZone(parts, ask, 1)
      decreases |parts| - i
    {
      var reply := ask(Join(parts[i..], '.'));
      if reply.SendError? || reply.BadJson? { return Err(ProviderError); }
      if reply.Zone? {
        zoneId := reply.id;
        break;
      }
      i := i + 1;
    }
    if zoneId == "" { return Err(NotFound); }
    return Ok(zoneId);
  }

  method FindRecordZone(domain: string, ask: string -> Listing) returns (r: Result<string, SearchError>)
    ensures r == RecordZone(Labels(domain), ask, 0)
  {
    var parts := Split(domain, '.');
    var i := 0;
    while i + 1 < |parts|
      invariant 0 <= i
      invariant RecordZone(parts, ask, i) == RecordZone(parts, ask, 0)
      decreases |parts| - i
    {
      var reply := ask(Join(parts[i..], '.'));
      if reply.SendError? { return Err(ProviderError); }
      if reply.Zone? && reply.id != "" { return Ok(reply.id); }
      i := i + 1;
    }
    return Err(NotFound);
  }

  /** An account whose lookups all go through, with a real id for every zone. */
  ghost predicate Clean(ask: string -> Listing) {
    forall s :: ask(s).NoZones? || (ask(s).Zone? && ask(s).id != "")
  }

  /** Zones have ids of their own. */
  ghost predicate DistinctZones(ask: string -> Listing) {
    forall s, t :: ask(s).Zone? && ask(s) == ask(t) ==> s == t
  }

  predicate Held(labels: seq<string>, ask: string -> Listing, i: nat) {
    i < |labels| && ask(Suffix(labels, i)).Zone?
  }

  lemma {:induction false} TxtZoneExact(labels: seq<string>, ask: string -> Listing, i: nat)
    requires Clean(ask)
    ensures var r := TxtZone(labels, ask, i);
            && (r.Err? <==> forall j: nat | i <= j :: !Held(labels, ask, j))
            && (r.Err? ==> r == Err(NotFound))
            && (forall k | i <= k && Held(labels, ask, k) && forall j | i <= j < k :: !Held(labels, ask, j) ::
                  r == Ok(ask(Suffix(labels, k)).id))
    decreases |labels| - i
  {
    if i < |labels| && !Held(labels, ask, i) {
      TxtZoneExact(labels, ask, i + 1);
    }
  }

  lemma {:induction false} RecordZoneExact(labels: seq<string>, ask: string -> Listing, i: nat)
    requires Clean(ask)
    ensures var r := RecordZone(labels, ask, i);
            && (r.Err? <==> forall j: nat | i <= j && j + 1 < |labels| :: !Held(labels, ask, j))
            && (r.Err? ==> r == Err(NotFound))
            && (forall k | i <= k && k + 1 < |labels| && Held(labels, ask, k)
                && forall j | i <= j < k :: !Held(labels, ask, j) ::
                  r == Ok(ask(Suffix(labels, k)).id))
    decreases |labels| - i
  {
    if i + 1 < |labels| && !Held(labels, ask, i) {
      RecordZoneExact(labels, ask, i + 1);
    }
  }

  lemma {:induction false} FirstHeld(labels: seq<string>, ask: string -> Listing, i: nat, n: nat) returns (k: nat)
    requires i <= n && Held(labels, ask, n)
    ensures i <= k <= n && Held(labels, ask, k)
    ensures forall j | i <= j < k :: !Held(labels, ask, j)
    decreases n - i
  {
    if i == n || Held(labels, ask, i) {
      k := i;
    } else {
      k := FirstHeld(labels, ask, i + 1, n);
    }
  }

  lemma SuffixesDiffer(domain: string, i: nat, j: nat)
    requires i < j < |Labels(domain)|
    ensures |Suffix(Labels(domain), j)| < |Suffix(Labels(domain), i)|
  {
    var labels := Labels(domain);
    var tail := labels[i..];
    JoinCut(tail, j - i, '.');
    assert tail[j - i..] == labels[j..];
  }

  /** A name that is a zone itself: one search finds it, the other looks above. */
  lemma ApexDisagrees(domain: string, ask: string -> Listing)
    requires Clean(ask) && DistinctZones(ask) && |Labels(domain)| >= 2 && Held(Labels(domain), ask, 0)
    ensures RecordZone(Labels(domain), ask, 0) != TxtZone(Labels(domain), ask, 1)
  {
    hide Suffix, Labels, RecordZone, TxtZone;
    var labels := Labels(domain);
    RecordZoneExact(labels, ask, 0);
    TxtZoneExact(labels, ask, 1);
    if TxtZone(labels, ask, 1).Ok? {
      var t :| 1 <= t && Held(labels, ask, t);
      var k := FirstHeld(labels, ask, 1, t);
      SuffixesDiffer(domain, 0, k);
      assert ask(Suffix(labels, 0)) != ask(Suffix(labels, k));
    }
  }

  /** A zone of at least two labels above the name: both find the longest one. */
  lemma InnerZoneAgrees(labels: seq<string>, ask: string -> Listing, m: nat)
    requires Clean(ask) && !Held(labels, ask, 0) && 1 <= m < |labels| - 1 && Held(labels, ask, m)
    ensures RecordZone(labels, ask, 0) == TxtZone(labels, ask, 1)
  {
    hide Suffix, RecordZone, TxtZone;
    RecordZoneExact(labels, ask, 0);
    TxtZoneExact(labels, ask, 1);
    var k := FirstHeld(labels, ask, 1, m);
    assert forall j | 0 <= j < k :: !Held(labels, ask, j);
  }

  /** The two Cloudflare searches agree on a name exactly when the name is not a
      zone itself, and its last label is not the only suffix that is one. A
      certificate for a zone's own name is therefore looked for in the wrong
      place. */
  lemma TxtZoneAgrees(domain: string, ask: string -> Listing)
    requires Clean(ask) && DistinctZones(ask) && |Labels(domain)| >= 2
    ensures var labels := Labels(domain);
            RecordZone(labels, ask, 0) == TxtZone(labels, ask, 1) <==>
              && !Held(labels, ask, 0)
              && (Held(labels, ask, |labels| - 1) ==> exists k | 1 <= k < |labels| - 1 :: Held(labels, ask, k))
  {
    hide Suffix, Labels, RecordZone, TxtZone;
    var labels := Labels(domain);
    if Held(labels, ask, 0) {
      ApexDisagrees(domain, ask);
    } else if m :| 1 <= m < |labels| - 1 && Held(labels, ask, m) {
      InnerZoneAgrees(labels, ask, m);
    } else {
      // only the challenge search tries the last label
      RecordZoneExact(labels, ask, 0);
      TxtZoneExact(labels, ask, 1);
    }
  }

  /** The challenge search of a wildcard starts at the name below the star. */
  lemma WildcardTxtZone(domain: string, ask: string -> Listing)
    ensures TxtZone(Labels("*." + domain), ask, 1) == TxtZone(Labels(domain), ask, 0)
  {
    SplitFirst("*", domain, '.');
    assert "*" + (['.'] + domain) == "*." + domain;
    SearchBelow("*", Labels(domain), ask, 0);
  }

  lemma {:induction false} SearchBelow(first: string, labels: seq<string>, ask: string -> Listing, i: nat)
    ensures TxtZone([first] + labels, ask, i + 1) == TxtZone(labels, ask, i)
    decreases |labels| - i
  {
    if i < |labels| {
      assert ([first] + labels)[i + 1..] == labels[i..];
      SearchBelow(first, labels, ask, i + 1);
    }
  }

  /** Where the search for a name finds a zone, the search for the wildcard below
      it finds another exactly when the name is a zone itself. */
  lemma WildcardZoneDiffers(domain: string, ask: string -> Listing)
    requires Clean(ask) && DistinctZones(ask) && TxtZone(Labels(domain), ask, 1).Ok?
    ensures TxtZone(Labels("*." + domain), ask, 1) != TxtZone(Labels(domain), ask, 1) <==> Held(Labels(domain), ask, 0)
  {
    hide Suffix, Labels, TxtZone;
    var labels := Labels(domain);
    WildcardTxtZone(domain, ask);
    TxtZoneExact(labels, ask, 0);
    TxtZoneExact(labels, ask, 1);
    var t :| 1 <= t && Held(labels, ask, t);
    var k := FirstHeld(labels, ask, 1, t);
    if Held(labels, ask, 0) {
      SuffixesDiffer(domain, 0, k);
      assert ask(Suffix(labels, 0)) != ask(Suffix(labels, k));
    } else {
      assert forall j | 0 <= j < k :: !Held(labels, ask, j);
    }
  }

  /** A zone and its parent zone. */
  lemma ChildZone(first: string, parent: string, ask: string -> Listing)
    requires '.' !in first && ask(first + ("." + parent)).Zone? && ask(first + ("." + parent)).id != ""
    requires ask(parent).Zone? && ask(parent).id != ""
    ensures TxtZone(Labels(first + ("." + parent)), ask, 1) == Ok(ask(parent).id)
    ensures TxtZone(Labels("*." + (first + ("." + parent))), ask, 1) == Ok(ask(first + ("." + parent)).id)
  {
    var domain := first + ("." + parent);
    SplitFirst(first, parent, '.');
    assert Labels(domain) == [first] + Labels(parent);
    HostAndZone(domain, 0);
    HostAndZone(parent, 0);
    SearchBelow(first, Labels(parent), ask, 0);
    WildcardTxtZone(domain, ask);
  }

  /** A zone's own name, with no zone above it: records are found, challenge
      records are not. */
  lemma ApexHasNoTxtZone(domain: string, ask: string -> Listing)
    requires Clean(ask) && |Labels(domain)| >= 2
    requires ask(domain).Zone? && forall j: nat | 1 <= j :: !Held(Labels(domain), ask, j)
    ensures RecordZone(Labels(domain), ask, 0) == Ok(ask(domain).id)
    ensures TxtZone(Labels(domain), ask, 1) == Err(NotFound)
  {
    HostAndZone(domain, 0);
    RecordZoneExact(Labels(domain), ask, 0);
    TxtZoneExact(Labels(domain), ask, 1);
  }
}
