/** The IP and ASN bootstrap indexes: `internal/rdapx/netregistry.go`.

    An address is its bits, a prefix the bits it fixes, so a prefix contains an
    address when it is a prefix of it in the ordinary sense. Reading a CIDR is
    an arbitrary function. */
module NetRegistry {
  import opened Base
  import opened Text

  type Bits = seq<bool>

  datatype Address = V4(bits: Bits) | V6(bits: Bits)

  datatype Service = Service(prefixes: seq<Bits>, bases: seq<string>)

  datatype AsnRange = AsnRange(lo: nat, hi: nat, bases: seq<string>)

  const MAX_UINT32 := 0xFFFF_FFFF

  // ---- the most specific prefix

  predicate At(services: seq<Service>, i: int, j: int) {
    0 <= i < |services| && 0 <= j < |services[i].prefixes|
  }

  predicate Covers(services: seq<Service>, i: int, j: int, ip: Bits) {
    At(services, i, j) && services[i].prefixes[j] <= ip
  }

  /** Entry (i, j) contains the address, no entry that does is longer, and none
      before it is as long. */
  ghost predicate IsBest(services: seq<Service>, i: int, j: int, ip: Bits) {
    && Covers(services, i, j, ip)
    && forall k, l :: Covers(services, k, l, ip) ==>
         && |services[k].prefixes[l]| <= |services[i].prefixes[j]|
         && (k < i || (k == i && l < j) ==> |services[k].prefixes[l]| < |services[i].prefixes[j]|)
  }

  /** The answer to a lookup: the bases of the best entry, or none if no entry
      contains the address. */
  ghost predicate IsAnswer(services: seq<Service>, ip: Bits, r: Option<seq<string>>) {
    match r
    case None => forall i, j :: !Covers(services, i, j, ip)
    case Some(bases) => exists i, j :: IsBest(services, i, j, ip) && bases == services[i].bases
  }

  /** Prefixes that contain one address are nested. */
  lemma Nested(p: Bits, q: Bits, ip: Bits)
    requires p <= ip && q <= ip && |p| <= |q|
    ensures p <= q && (|p| == |q| ==> p == q)
  {
  }

  /** What a bootstrap document says, whatever the order it says it in. */
  ghost function Entries(services: seq<Service>): set<(Bits, seq<string>)> {
    set i, j | 0 <= i < |services| && 0 <= j < |services[i].prefixes| :: (services[i].prefixes[j], services[i].bases)
  }

  /** Each network is given to one set of bases. */
  ghost predicate ListedOnce(services: seq<Service>) {
    forall e, f :: e in Entries(services) && f in Entries(services) && e.0 == f.0 ==> e == f
  }

  /** The answer is a function of what is listed: it does not depend on the order
      of services, nor on the order of prefixes within one, nor on how prefixes
      with the same bases are grouped. */
  lemma {:induction false} OrderDoesNotMatter(a: seq<Service>, b: seq<Service>, ip: Bits,
                                              r: Option<seq<string>>, r': Option<seq<string>>)
    requires Entries(a) == Entries(b) && ListedOnce(a)
    requires IsAnswer(a, ip, r) && IsAnswer(b, ip, r')
    ensures r == r'
  {
    if r.Some? {
      AnswerEntry(a, b, ip, r.value);
    }
    if r'.Some? {
      AnswerEntry(b, a, ip, r'.value);
    }
    if r.Some? && r'.Some? {
      var i, j :| IsBest(a, i, j, ip) && r.value == a[i].bases;
      var k, l :| IsBest(b, k, l, ip) && r'.value == b[k].bases;
      var k', l' := Elsewhere(b, a, k, l);
      var i', j' := Elsewhere(a, b, i, j);
      assert Covers(a, k', l', ip) && Covers(b, i', j', ip);
      Nested(a[i].prefixes[j], b[k].prefixes[l], ip);
      assert (a[i].prefixes[j], a[i].bases) in Entries(a);
      assert (b[k].prefixes[l], b[k].bases) in Entries(a);
    }
  }

  lemma {:induction false} AnswerEntry(a: seq<Service>, b: seq<Service>, ip: Bits, bases: seq<string>)
    requires Entries(a) == Entries(b) && IsAnswer(a, ip, Some(bases))
    ensures !IsAnswer(b, ip, None)
  {
    var i, j :| IsBest(a, i, j, ip);
    var k, l := Elsewhere(a, b, i, j);
    assert Covers(b, k, l, ip);
  }

  lemma {:induction false} Elsewhere(a: seq<Service>, b: seq<Service>, i: int, j: int) returns (k: int, l: int)
    requires Entries(a) == Entries(b) && At(a, i, j)
    ensures At(b, k, l) && b[k].prefixes[l] == a[i].prefixes[j] && b[k].bases == a[i].bases
  {
    assert (a[i].prefixes[j], a[i].bases) in Entries(b);
    k, l :| At(b, k, l) && (b[k].prefixes[l], b[k].bases) == (a[i].prefixes[j], a[i].bases);
  }

  // ---- autonomous system numbers

  predicate Holds(r: AsnRange, asn: nat) {
    r.lo <= asn <= r.hi
  }

  ghost predicate SortedByLow(t: seq<AsnRange>) {
    forall i, j :: 0 <= i < j < |t| ==> t[i].lo <= t[j].lo
  }

  /** How many low bounds do not exceed the number: in a sorted table, the
      position of the first that does. */
  function Upper(t: seq<AsnRange>, asn: nat): (i: nat)
    ensures i <= |t|
  {
    if t == [] then 0 else (if t[0].lo <= asn then 1 else 0) + Upper(t[1..], asn)
  }

  lemma {:induction false} UpperIsSplit(t: seq<AsnRange>, asn: nat, i: nat)
    requires i <= |t|
    requires forall k :: 0 <= k < i ==> t[k].lo <= asn
    requires forall k :: i <= k < |t| ==> t[k].lo > asn
    ensures Upper(t, asn) == i
  {
    if t != [] {
      UpperIsSplit(t[1..], asn, if i > 0 then i - 1 else 0);
    }
  }

  lemma {:induction false} UpperSplits(t: seq<AsnRange>, asn: nat)
    requires SortedByLow(t)
    ensures forall k :: 0 <= k < Upper(t, asn) ==> t[k].lo <= asn
    ensures forall k :: Upper(t, asn) <= k < |t| ==> t[k].lo > asn
  {
    if t != [] {
      UpperSplits(t[1..], asn);
      assert forall k :: 0 < k < |t| ==> t[k] == t[1..][k - 1];
    }
  }

  /** The back-scan: at most n entries below i, the nearest first. */
  function BackScan(t: seq<AsnRange>, asn: nat, i: nat, n: nat): Option<seq<string>>
    requires i <= |t|
  {
    if i == 0 || n == 0 then None
    else if Holds(t[i - 1], asn) then Some(t[i - 1].bases)
    else BackScan(t, asn, i - 1, n - 1)
  }

  function LookupASNSpec(t: seq<AsnRange>, asn: nat): Option<seq<string>> {
    BackScan(t, asn, Upper(t, asn), 4)
  }

  /** The plain reading: the first range in the document that holds the number. */
  function LinearScan(ranges: seq<AsnRange>, asn: nat): Option<seq<string>> {
    if ranges == [] then None
    else if Holds(ranges[0], asn) then Some(ranges[0].bases)
    else LinearScan(ranges[1..], asn)
  }

  /** Different ranges share no number. */
  ghost predicate Disjoint(ranges: seq<AsnRange>) {
    forall r, q, asn :: r in ranges && q in ranges && r != q && Holds(r, asn) ==> !Holds(q, asn)
  }

  lemma {:induction false} BackScanFinds(t: seq<AsnRange>, asn: nat, i: nat, n: nat)
    requires i <= |t|
    ensures match BackScan(t, asn, i, n)
            case Some(bases) => exists j :: i - n <= j < i && 0 <= j && Holds(t[j], asn) && bases == t[j].bases
            case None => forall j :: i - n <= j < i && 0 <= j ==> !Holds(t[j], asn)
  {
    if i > 0 && n > 0 && !Holds(t[i - 1], asn) {
      BackScanFinds(t, asn, i - 1, n - 1);
    }
  }

  /** Overlaps: a hit is always a range that holds the number, and there is one
      exactly when such a range is among the four greatest low bounds not above
      the number. */
  lemma {:induction false} HitIffAmongFour(t: seq<AsnRange>, asn: nat)
    requires SortedByLow(t)
    ensures LookupASNSpec(t, asn).Some? <==>
            exists j :: Upper(t, asn) - 4 <= j < Upper(t, asn) && 0 <= j && Holds(t[j], asn)
    ensures LookupASNSpec(t, asn).Some? ==>
              exists r :: r in t && Holds(r, asn) && r.bases == LookupASNSpec(t, asn).value
  {
    BackScanFinds(t, asn, Upper(t, asn), 4);
  }

  /** The bound of four matters: under five nested ranges the widest is missed. */
  lemma FifthIsMissed()
    ensures var t := [AsnRange(0, 9, ["a"]), AsnRange(1, 1, ["b"]), AsnRange(2, 2, ["b"]),
                      AsnRange(3, 3, ["b"]), AsnRange(4, 4, ["b"])];
            SortedByLow(t) && LinearScan(t, 5) == Some(["a"]) && LookupASNSpec(t, 5) == None
  {
    var t := [AsnRange(0, 9, ["a"]), AsnRange(1, 1, ["b"]), AsnRange(2, 2, ["b"]),
              AsnRange(3, 3, ["b"]), AsnRange(4, 4, ["b"])];
    UpperIsSplit(t, 5, 5);
  }

  lemma {:induction false} LinearScanFinds(ranges: seq<AsnRange>, asn: nat)
    ensures match LinearScan(ranges, asn)
            case Some(bases) => exists r :: r in ranges && Holds(r, asn) && bases == r.bases
            case None => forall r :: r in ranges ==> !Holds(r, asn)
  {
    if ranges != [] {
      LinearScanFinds(ranges[1..], asn);
    }
  }

  /** Disjoint ranges: sorting, binary search and the back-scan answer as a plain
      scan of the document does, for every number. */
  lemma {:induction false} SearchAgreesWithScan(ranges: seq<AsnRange>, t: seq<AsnRange>, asn: nat)
    requires SortedByLow(t) && multiset(t) == multiset(ranges)
    requires Disjoint(ranges) && forall r :: r in ranges ==> r.lo <= r.hi
    ensures LookupASNSpec(t, asn) == LinearScan(ranges, asn)
  {
    SameMembers(ranges, t);
    LinearScanFinds(ranges, asn);
    HitIffAmongFour(t, asn);
    UpperSplits(t, asn);
    var i := Upper(t, asn);
    if LinearScan(ranges, asn).Some? {
      var r :| r in ranges && Holds(r, asn) && LinearScan(ranges, asn).value == r.bases;
      var j :| 0 <= j < |t| && t[j] == r;
      assert j < i;
      assert t[j].lo <= t[i - 1].lo;
      assert Holds(t[i - 1], t[i - 1].lo) && Holds(r, t[i - 1].lo);
      assert t[i - 1] in ranges;
      assert t[i - 1] == r;
    }
  }

  lemma SameMembers(a: seq<AsnRange>, b: seq<AsnRange>)
    requires multiset(a) == multiset(b)
    ensures forall r :: r in a <==> r in b
  {
    forall r
      ensures r in a <==> r in b
    {
      assert r in a <==> r in multiset(a);
      assert r in b <==> r in multiset(b);
    }
  }

  // ---- reading a range

  predicate IsDigit(c: char) {
    '0' <= c <= '9'
  }

  /** The value of a string of digits. */
  function Digits(s: string): nat
    requires forall c :: c in s ==> IsDigit(c)
  {
    if s == "" then 0
    else
      assert IsDigit(s[|s| - 1]) by { assert s[|s| - 1] in s; }
      10 * Digits(s[..|s| - 1]) + (s[|s| - 1] as int - '0' as int)
  }

  function ParseUint32(s: string): Option<nat> {
    if s == "" || (exists c :: c in s && !IsDigit(c)) then None
    else if Digits(s) > MAX_UINT32 then None
    else Some(Digits(s))
  }

  /** One number, or two with a dash between them, the smaller first. */
  function ParseASNRange(spec: string): Option<(nat, nat)> {
    var s := TrimSpace(spec);
    if s == "" then None
    else
      var i := IndexOf(s, '-');
      var l := ParseUint32(TrimSpace(s[..i]));
      if l.None? then None
      else if i == |s| then Some((l.value, l.value))
      else
        var h := ParseUint32(TrimSpace(s[i + 1..]));
        if h.None? || h.value < l.value then None else Some((l.value, h.value))
  }

  function Decimal(n: nat): (s: string)
    ensures s != "" && forall c :: c in s ==> IsDigit(c)
  {
    var last := [('0' as int + n % 10) as char];
    if n < 10 then last else Decimal(n / 10) + last
  }

  lemma {:induction false} DecimalRoundTrip(n: nat)
    ensures Digits(Decimal(n)) == n
  {
    if n >= 10 {
      DecimalRoundTrip(n / 10);
      assert Decimal(n)[..|Decimal(n)| - 1] == Decimal(n / 10);
    }
  }

  lemma {:induction false} NothingToTrim(s: string)
    requires s != "" && !IsSpace(s[0]) && !IsSpace(s[|s| - 1])
    ensures TrimSpace(s) == s
  {
  }

  /** Writing a range and reading it back gives the range, for exactly the pairs
      of 32-bit numbers in order; a single number stands for itself. */
  lemma {:induction false} RangeRoundTrip(lo: nat, hi: nat)
    ensures ParseASNRange(Decimal(lo) + "-" + Decimal(hi)) ==
            if lo <= hi <= MAX_UINT32 then Some((lo, hi)) else None
    ensures ParseASNRange(Decimal(lo)) == if lo <= MAX_UINT32 then Some((lo, lo)) else None
  {
    var l, h := Decimal(lo), Decimal(hi);
    var s := l + "-" + h;
    DecimalRoundTrip(lo);
    DecimalRoundTrip(hi);
    assert s[0] in l && s[|s| - 1] in h && l[|l| - 1] in l && h[0] in h && l[0] in l && h[|h| - 1] in h;
    NothingToTrim(s);
    NothingToTrim(l);
    NothingToTrim(h);
    assert s[..|l|] == l && s[|l| + 1..] == h;
    FirstIndex(s, '-', |l|);
    assert l[..|l|] == l;
    FirstIndex(l, '-', |l|);
  }

  // ---- the registry

  /** A bootstrap document: each service is a list of lists of strings, of which
      well-formed ones have two. */
  datatype Doc = Doc(publication: Instant, services: seq<seq<seq<string>>>)

  /** How the registry reads what it does not define itself. */
  datatype Reader = Reader(parseCIDR: string -> Option<Bits>)

  /** A base URL is trimmed, must be https, and ends in a slash. */
  function SecureBase(url: string): Option<string> {
    var u := TrimSpace(url);
    if !("https://" <= Lower(u)) then None
    else if u[|u| - 1] != '/' then Some(u + "/")
    else Some(u)
  }

  function PreferHTTPS(urls: seq<string>): seq<string> {
    if urls == [] then []
    else
      var u := SecureBase(urls[0]);
      (if u.Some? then [u.value] else []) + PreferHTTPS(urls[1..])
  }

  function ReadPrefixes(rd: Reader, cidrs: seq<string>): seq<Bits> {
    if cidrs == [] then []
    else
      var n := rd.parseCIDR(TrimSpace(cidrs[0]));
      (if n.Some? then [n.value] else []) + ReadPrefixes(rd, cidrs[1..])
  }

  /** What one service entry contributes to the prefix table: nothing if it is
      malformed, has no secure base, or no readable prefix. */
  function ReadService(rd: Reader, svc: seq<seq<string>>): seq<Service> {
    if |svc| == 2 && PreferHTTPS(svc[1]) != [] && ReadPrefixes(rd, svc[0]) != []
    then [Service(ReadPrefixes(rd, svc[0]), PreferHTTPS(svc[1]))] else []
  }

  /** The usable services of a document, in its order. */
  function ReadServices(rd: Reader, services: seq<seq<seq<string>>>): (out: seq<Service>)
    ensures forall svc :: svc in out ==> svc.bases != [] && svc.prefixes != []
  {
    if services == [] then []
    else ReadServices(rd, services[..|services| - 1]) + ReadService(rd, services[|services| - 1])
  }

  function ReadSpecs(specs: seq<string>, bases: seq<string>): (out: seq<AsnRange>)
    ensures forall r :: r in out ==> r.lo <= r.hi <= MAX_UINT32
  {
    if specs == [] then []
    else
      var r := ParseASNRange(specs[|specs| - 1]);
      ReadSpecs(specs[..|specs| - 1], bases) + (if r.Some? then [AsnRange(r.value.0, r.value.1, bases)] else [])
  }

  function ReadRangesOf(rd: Reader, svc: seq<seq<string>>): (out: seq<AsnRange>)
    ensures forall r :: r in out ==> r.lo <= r.hi <= MAX_UINT32
  {
    if |svc| == 2 && PreferHTTPS(svc[1]) != [] then ReadSpecs(svc[0], PreferHTTPS(svc[1])) else []
  }

  function ReadRanges(rd: Reader, services: seq<seq<seq<string>>>): (out: seq<AsnRange>)
    ensures forall r :: r in out ==> r.lo <= r.hi <= MAX_UINT32
  {
    if services == [] then []
    else ReadRanges(rd, services[..|services| - 1]) + ReadRangesOf(rd, services[|services| - 1])
  }

  /** Stands for the library's sort: any sorted rearrangement would do. */
  function SortByLow(t: seq<AsnRange>): (sorted: seq<AsnRange>)
    ensures SortedByLow(sorted) && multiset(sorted) == multiset(t)
  {
    if t == [] then []
    else
      assert t == [t[0]] + t[1..];
      InsertByLow(t[0], SortByLow(t[1..]))
  }

  function InsertByLow(r: AsnRange, t: seq<AsnRange>): (sorted: seq<AsnRange>)
    requires SortedByLow(t)
    ensures SortedByLow(sorted) && multiset(sorted) == multiset(t) + multiset{r}
    ensures sorted != [] && sorted[0].lo == if t != [] && t[0].lo < r.lo then t[0].lo else r.lo
  {
    if t == [] || r.lo <= t[0].lo then [r] + t
    else
      assert t == [t[0]] + t[1..];
      [t[0]] + InsertByLow(r, t[1..])
  }

  method ServicesOf(rd: Reader, services: seq<seq<seq<string>>>) returns (out: seq<Service>)
    ensures out == ReadServices(rd, services)
  {
    out := [];
    for i := 0 to |services|
      invariant out == ReadServices(rd, services[..i])
    {
      var svc := services[i];
      assert services[..i + 1][..i] == services[..i];
      if |svc| != 2 {
        continue;
      }
      var bases := PreferHTTPS(svc[1]);
      if |bases| == 0 {
        continue;
      }
      var nets := ReadPrefixes(rd, svc[0]);
      if |nets| > 0 {
        out := out + [Service(nets, bases)];
      }
    }
    assert services[..|services|] == services;
  }

  method RangesOf(rd: Reader, services: seq<seq<seq<string>>>) returns (out: seq<AsnRange>)
    ensures out == ReadRanges(rd, services)
  {
    hide ParseASNRange, PreferHTTPS;
    out := [];
    for i := 0 to |services|
      invariant out == ReadRanges(rd, services[..i])
    {
      var svc := services[i];
      assert services[..i + 1][..i] == services[..i];
      if |svc| != 2 {
        continue;
      }
      var bases := PreferHTTPS(svc[1]);
      if |bases| == 0 {
        continue;
      }
      var specs := svc[0];
      for j := 0 to |specs|
        invariant out == ReadRanges(rd, services[..i]) + ReadSpecs(specs[..j], bases)
      {
        assert specs[..j + 1][..j] == specs[..j];
        var r := ParseASNRange(specs[j]);
        if r.None? {
          continue;
        }
        out := out + [AsnRange(r.value.0, r.value.1, bases)];
      }
      assert specs[..|specs|] == specs;
    }
    assert services[..|services|] == services;
  }

  class NetRegistry {
    const rd: Reader
    var v4: seq<Service>
    var v6: seq<Service>
    var asns: seq<AsnRange>
    var publication: Instant
    var loadedAt: Instant
    var fromNetwork: bool

    /** Every service has a base URL to answer with; ranges are in search order. */
    ghost predicate Valid()
      reads this
    {
      && (forall svc :: svc in v4 ==> svc.bases != [])
      && (forall svc :: svc in v6 ==> svc.bases != [])
      && SortedByLow(asns)
    }

    constructor (rd: Reader)
      ensures Valid() && this.rd == rd && v4 == [] && v6 == [] && asns == []
    {
      this.rd := rd;
      v4, v6, asns := [], [], [];
      publication, loadedAt, fromNetwork := 0, 0, false;
    }

    method LookupIP(ip: Option<Address>) returns (r: Option<seq<string>>)
      requires Valid()
      ensures ip.None? ==> r == None
      ensures ip.Some? ==> IsAnswer(if ip.value.V4? then v4 else v6, ip.value.bits, r)
    {
      if ip.None? {
        return None;
      }
      var bits := ip.value.bits;
      var services := if ip.value.V4? then v4 else v6;
      var bestOnes := -1;
      var best: seq<string> := [];
      ghost var bi, bj := 0, 0;
      for i := 0 to |services|
        invariant bestOnes == -1 ==> best == [] && forall k, l :: k < i ==> !Covers(services, k, l, bits)
        invariant bestOnes >= 0 ==> Leads(services, bits, bi, bj, i, 0) && best == services[bi].bases
        invariant bestOnes >= 0 ==> bestOnes == |services[bi].prefixes[bj]|
        invariant bestOnes >= -1
      {
        for j := 0 to |services[i].prefixes|
          invariant bestOnes == -1 ==>
                      best == [] && forall k, l :: k < i || (k == i && l < j) ==> !Covers(services, k, l, bits)
          invariant bestOnes >= 0 ==> Leads(services, bits, bi, bj, i, j) && best == services[bi].bases
          invariant bestOnes >= 0 ==> bestOnes == |services[bi].prefixes[bj]|
          invariant bestOnes >= -1
        {
          var n := services[i].prefixes[j];
          if n <= bits && |n| > bestOnes {
            bestOnes, best := |n|, services[i].bases;
            bi, bj := i, j;
          }
        }
      }
      if best == [] {
        return None;
      }
      assert IsBest(services, bi, bj, bits);
      return Some(best);
    }

    /** A binary search for the first low bound above the number, then at most four
        steps back. */
    method LookupASN(asn: nat) returns (r: Option<seq<string>>)
      requires Valid()
      ensures r == LookupASNSpec(asns, asn)
    {
      var i, end := 0, |asns|;
      while i < end
        invariant 0 <= i <= end <= |asns|
        invariant forall k :: 0 <= k < i ==> asns[k].lo <= asn
        invariant forall k :: end <= k < |asns| ==> asns[k].lo > asn
      {
        var h := (i + end) / 2;
        if asns[h].lo > asn {
          end := h;
        } else {
          i := h + 1;
        }
      }
      UpperIsSplit(asns, asn, i);
      var j := i - 1;
      while j >= 0 && j >= i - 4
        invariant -1 <= j < i && i - 5 <= j
        invariant LookupASNSpec(asns, asn) == BackScan(asns, asn, j + 1, 4 - (i - 1 - j))
      {
        if asn >= asns[j].lo && asn <= asns[j].hi {
          return Some(asns[j].bases);
        }
        j := j - 1;
      }
      return None;
    }

    /** `doc` is None when the text is not a bootstrap document. A document without
        a usable service changes nothing. */
    method LoadIP(doc: Option<Doc>, isV6: bool, now: Instant) returns (ok: bool)
      requires Valid()
      modifies this
      ensures Valid()
      ensures ok == (doc.Some? && ReadServices(rd, doc.value.services) != [])
      ensures v4 == if ok && !isV6 then ReadServices(rd, doc.value.services) else old(v4)
      ensures v6 == if ok && isV6 then ReadServices(rd, doc.value.services) else old(v6)
      ensures publication == if ok && doc.value.publication > old(publication)
                             then doc.value.publication
                             else old(publication)
      ensures loadedAt == if ok then now else old(loadedAt)
      ensures asns == old(asns) && fromNetwork == old(fromNetwork)
    {
      if doc.None? {
        return false;
      }
      var out := ServicesOf(rd, doc.value.services);
      if |out| == 0 {
        return false;
      }
      if isV6 {
        v6 := out;
      } else {
        v4 := out;
      }
      if doc.value.publication > publication {
        publication := doc.value.publication;
      }
      loadedAt := now;
      return true;
    }

    method LoadASN(doc: Option<Doc>, now: Instant) returns (ok: bool)
      requires Valid()
      modifies this
      ensures Valid()
      ensures ok == (doc.Some? && ReadRanges(rd, doc.value.services) != [])
      ensures if ok then multiset(asns) == multiset(ReadRanges(rd, doc.value.services)) else asns == old(asns)
      ensures publication == if ok && doc.value.publication > old(publication)
                             then doc.value.publication
                             else old(publication)
      ensures loadedAt == if ok then now else old(loadedAt)
      ensures v4 == old(v4) && v6 == old(v6) && fromNetwork == old(fromNetwork)
    {
      hide ReadRanges, SortByLow, SortedByLow;
      if doc.None? {
        return false;
      }
      var out := RangesOf(rd, doc.value.services);
      if |out| == 0 {
        return false;
      }
      out := SortByLow(out);
      asns := out;
      if doc.value.publication > publication {
        publication := doc.value.publication;
      }
      loadedAt := now;
      return true;
    }

    /** Fetches the three files; None is a failed fetch. Each table depends on its own
        file only and survives when that one cannot be used. */
    method Refresh(f4: Option<Option<Doc>>, f6: Option<Option<Doc>>, fAsn: Option<Option<Doc>>, now: Instant)
      returns (failures: nat)
      requires Valid()
      modifies this
      ensures Valid()
      ensures v4 == if UsableIP(rd, f4) then ReadServices(rd, f4.value.value.services) else old(v4)
      ensures v6 == if UsableIP(rd, f6) then ReadServices(rd, f6.value.value.services) else old(v6)
      ensures if UsableASN(rd, fAsn) then multiset(asns) == multiset(ReadRanges(rd, fAsn.value.value.services))
              else asns == old(asns)
      ensures failures == (if UsableIP(rd, f4) then 0 else 1) + (if UsableIP(rd, f6) then 0 else 1)
                          + (if UsableASN(rd, fAsn) then 0 else 1)
      ensures fromNetwork == (failures < 3 || old(fromNetwork))
    {
      failures := 0;
      var ok := false;
      if f4.Some? {
        ok := LoadIP(f4.value, false, now);
      }
      failures := failures + if ok then 0 else 1;
      ok := false;
      if f6.Some? {
        ok := LoadIP(f6.value, true, now);
      }
      failures := failures + if ok then 0 else 1;
      ok := false;
      if fAsn.Some? {
        ok := LoadASN(fAsn.value, now);
      }
      failures := failures + if ok then 0 else 1;
      if failures == 3 {
        return;
      }
      fromNetwork := true;
    }
  }

  predicate UsableIP(rd: Reader, f: Option<Option<Doc>>) {
    f.Some? && f.value.Some? && ReadServices(rd, f.value.value.services) != []
  }

  predicate UsableASN(rd: Reader, f: Option<Option<Doc>>) {
    f.Some? && f.value.Some? && ReadRanges(rd, f.value.value.services) != []
  }

  /** Entry (i, j) is the first longest among the entries before (k, l). */
  ghost predicate Leads(services: seq<Service>, ip: Bits, i: int, j: int, k: int, l: int) {
    && Covers(services, i, j, ip) && (i < k || (i == k && j < l))
    && forall m, n :: Covers(services, m, n, ip) && (m < k || (m == k && n < l)) ==>
         && |services[m].prefixes[n]| <= |services[i].prefixes[j]|
         && (m < i || (m == i && n < j) ==> |services[m].prefixes[n]| < |services[i].prefixes[j]|)
  }

  /** After a load, every lookup answers as a plain scan of the document would,
      provided its ranges are disjoint. */
  lemma {:induction false} LoadedTableAgrees(rd: Reader, doc: Doc, t: seq<AsnRange>, asn: nat)
    requires SortedByLow(t) && multiset(t) == multiset(ReadRanges(rd, doc.services))
    requires Disjoint(ReadRanges(rd, doc.services))
    ensures LookupASNSpec(t, asn) == LinearScan(ReadRanges(rd, doc.services), asn)
  {
    SearchAgreesWithScan(ReadRanges(rd, doc.services), t, asn);
  }

  // ---- what a document puts into the tables

  /** Without the white space around it a URL is secure exactly if it begins with
      https:// in any case; a slash is put to its end if it has none. */
  lemma {:induction false} SecureExactly(a: string, u: string, b: string)
    requires AllSpace(a) && AllSpace(b) && Trimmed(u)
    ensures SecureBase(a + u + b) ==
            if |u| >= 8 && Lower(u[..8]) == "https://" then Some(if u[|u| - 1] == '/' then u else u + "/") else None
  {
    hide TrimSpace, IsSpace;
    TrimSpaceIs(a, u, b);
    LowerIs(u);
    assert |u| >= 8 ==> Lower(u)[..8] == Lower(u[..8]);
    assert "https://" <= Lower(u) <==> |u| >= 8 && Lower(u)[..8] == "https://";
  }

  /** The secure ones among the URLs, in their order: of one URL itself if it is
      secure, and of a list what its two parts give. */
  lemma {:induction false} SecureOnes(a: seq<string>, b: seq<string>)
    ensures PreferHTTPS(a + b) == PreferHTTPS(a) + PreferHTTPS(b)
    ensures |a| == 1 ==> PreferHTTPS(a) == if SecureBase(a[0]).Some? then [SecureBase(a[0]).value] else []
  {
    hide SecureBase;
    if a == [] {
      assert a + b == b;
    } else {
      assert (a + b)[1..] == a[1..] + b;
      SecureOnes(a[1..], b);
    }
  }

  lemma {:induction false} ReadableOnes(rd: Reader, cidrs: seq<string>, p: Bits)
    ensures p in ReadPrefixes(rd, cidrs) <==> exists c :: c in cidrs && rd.parseCIDR(TrimSpace(c)) == Some(p)
  {
    hide TrimSpace;
    if cidrs != [] {
      ReadableOnes(rd, cidrs[1..], p);
      if c :| c in cidrs && rd.parseCIDR(TrimSpace(c)) == Some(p) {
        assert c == cidrs[0] || c in cidrs[1..];
      }
    }
  }

  /** The service is a list of two lists, of which the first has readable prefixes
      and the second secure URLs. */
  ghost predicate Lists(rd: Reader, svc: seq<seq<string>>, p: Bits, bases: seq<string>) {
    && |svc| == 2
    && (exists c :: c in svc[0] && rd.parseCIDR(TrimSpace(c)) == Some(p))
    && bases == PreferHTTPS(svc[1]) && bases != []
  }

  /** A network is in the table with certain bases exactly if some service of the
      document lists it with them. */
  lemma {:induction false} TableExactly(rd: Reader, services: seq<seq<seq<string>>>, p: Bits, bases: seq<string>)
    ensures (p, bases) in Entries(ReadServices(rd, services)) <==>
              exists svc :: svc in services && Lists(rd, svc, p, bases)
  {
    hide TrimSpace, PreferHTTPS, Lists;
    if services != [] {
      var n := |services| - 1;
      var front, last := services[..n], services[n];
      TableExactly(rd, front, p, bases);
      assert services == front + [last];
      EntriesOfBoth(ReadServices(rd, front), ReadService(rd, last), p, bases);
      ServiceLists(rd, last, p, bases);
      if svc :| svc in services && Lists(rd, svc, p, bases) {
        assert svc in front || svc == last;
      }
    }
  }

  lemma EntriesOfBoth(a: seq<Service>, b: seq<Service>, p: Bits, bases: seq<string>)
    ensures (p, bases) in Entries(a + b) <==> (p, bases) in Entries(a) || (p, bases) in Entries(b)
  {
    var all := a + b;
    if i, j :| At(all, i, j) && (all[i].prefixes[j], all[i].bases) == (p, bases) {
      assert if i < |a| then At(a, i, j) && a[i] == all[i] else At(b, i - |a|, j) && b[i - |a|] == all[i];
    }
    if i, j :| At(a, i, j) && (a[i].prefixes[j], a[i].bases) == (p, bases) {
      assert At(all, i, j) && all[i] == a[i];
    }
    if i, j :| At(b, i, j) && (b[i].prefixes[j], b[i].bases) == (p, bases) {
      assert At(all, i + |a|, j) && all[i + |a|] == b[i];
    }
  }

  lemma ServiceLists(rd: Reader, svc: seq<seq<string>>, p: Bits, bases: seq<string>)
    ensures (p, bases) in Entries(ReadService(rd, svc)) <==> Lists(rd, svc, p, bases)
  {
    hide TrimSpace, PreferHTTPS, ReadPrefixes;
    if |svc| == 2 {
      ReadableOnes(rd, svc[0], p);
      var out := ReadService(rd, svc);
      if Lists(rd, svc, p, bases) {
        var j :| 0 <= j < |ReadPrefixes(rd, svc[0])| && ReadPrefixes(rd, svc[0])[j] == p;
        assert At(out, 0, j) && out[0].prefixes[j] == p;
      }
    }
  }

  ghost predicate ListsRange(rd: Reader, svc: seq<seq<string>>, r: AsnRange) {
    && |svc| == 2
    && (exists spec :: spec in svc[0] && ParseASNRange(spec) == Some((r.lo, r.hi)))
    && r.bases == PreferHTTPS(svc[1]) && r.bases != []
  }

  /** A range is in the table exactly if some service lists it, with its bases. */
  lemma {:induction false} RangesExactly(rd: Reader, services: seq<seq<seq<string>>>, r: AsnRange)
    ensures r in ReadRanges(rd, services) <==> exists svc :: svc in services && ListsRange(rd, svc, r)
  {
    hide ParseASNRange, PreferHTTPS, ListsRange;
    if services != [] {
      var n := |services| - 1;
      RangesExactly(rd, services[..n], r);
      assert services == services[..n] + [services[n]];
      RangesOfOne(rd, services[n], r);
    }
  }

  lemma RangesOfOne(rd: Reader, svc: seq<seq<string>>, r: AsnRange)
    ensures r in ReadRangesOf(rd, svc) <==> ListsRange(rd, svc, r)
  {
    hide ParseASNRange, PreferHTTPS, ReadSpecs;
    if |svc| == 2 {
      SpecsRead(svc[0], PreferHTTPS(svc[1]), r);
    }
  }

  lemma {:induction false} SpecsRead(specs: seq<string>, bases: seq<string>, r: AsnRange)
    ensures r in ReadSpecs(specs, bases) <==>
              r.bases == bases && exists spec :: spec in specs && ParseASNRange(spec) == Some((r.lo, r.hi))
  {
    hide ParseASNRange;
    if specs != [] {
      var n := |specs| - 1;
      SpecsRead(specs[..n], bases, r);
      assert specs == specs[..n] + [specs[n]];
    }
  }
}
