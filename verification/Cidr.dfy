/** CIDR blocks of a cluster (pkg/specs/validation.go). */
module Cidr {
  import opened Wrappers
  import opened Powers

  /** An address in its 4-byte or its 16-byte form, as a number. */
  datatype IP = V4(a: nat) | V6(a: nat)
  {
    function Bits(): nat {
      if V4? then 32 else 128
    }
  }

  /** An address and the number of leading ones of the mask, which is as wide as the address. */
  datatype Cidr = Cidr(ip: IP, ones: nat)
  {
    predicate Valid() {
      ip.a < Pow2(ip.Bits()) && ones <= ip.Bits()
    }

    function HostBits(): nat
      requires Valid()
    {
      ip.Bits() - ones
    }
  }

  type Net = c: Cidr | c.Valid() witness Cidr(V4(0), 0)

  // ---- Package net: masks, the two forms of an IPv4 address, Contains ----

  const MAPPED_PREFIX := 0xffff

  function To4(ip: IP): Option<nat> {
    if ip.V4? then Some(ip.a)
    else if ip.a / Pow2(32) == MAPPED_PREFIX then Some(ip.a % Pow2(32)) else None
  }

  function As16(ip: IP): nat {
    if ip.V4? then MAPPED_PREFIX * Pow2(32) + ip.a else ip.a
  }

  predicate Equal(a: IP, b: IP) {
    As16(a) == As16(b)
  }

  function Mask(c: Net): Net {
    var a := Down(c.ip.a, Pow2(c.HostBits()));
    if c.ip.V4? then Cidr(V4(a), c.ones) else Cidr(V6(a), c.ones)
  }

  /** The network number is shortened to four bytes where it can be, and the mask with it; then the address must have as
      many bytes and agree under the mask. */
  predicate Contains(n: Net, ip: IP) {
    match (To4(n.ip), To4(ip))
    case (Some(network), Some(address)) =>
      var ones := if n.ip.V4? then n.ones else if n.ones < 96 then 0 else n.ones - 96;
      network / Pow2(32 - ones) == address / Pow2(32 - ones)
    case (None, None) => n.ip.a / Pow2(n.HostBits()) == ip.a / Pow2(n.HostBits())
    case _ => false
  }

  // ---- The code's two tests ----

  /** The network of a text that gives no host address. */
  function IsValidCIDR(parse: string -> Option<Net>, text: string): Option<Net> {
    match parse(text)
    case None => None
    case Some(c) => if Equal(c.ip, Mask(c).ip) then Some(Mask(c)) else None
  }

  predicate NetworksIntersect(n1: Net, n2: Net) {
    Contains(n2, n1.ip) || Contains(n1, n2.ip)
  }

  // ---- What they are to mean: blocks of addresses, numbered as IPv6 addresses ----

  predicate InBlock(n: Net, x: nat) {
    x / Pow2(n.HostBits()) == As16(n.ip) / Pow2(n.HostBits())
  }

  predicate Aligned(n: Net) {
    As16(n.ip) % Pow2(n.HostBits()) == 0
  }

  ghost predicate Share(n1: Net, n2: Net) {
    exists x: nat :: InBlock(n1, x) && InBlock(n2, x)
  }

  predicate Is4(ip: IP) {
    To4(ip).Some?
  }

  /** A genuine IPv6 block around the whole range of embedded IPv4 addresses. */
  predicate AroundMapped(n: Net) {
    !Is4(n.ip) && InBlock(n, MAPPED_PREFIX * Pow2(32))
  }

  // ---- Proofs ----

  lemma Embedded(ip: IP)
    requires ip.a < Pow2(ip.Bits())
    ensures Is4(ip) <==> As16(ip) / Pow2(32) == MAPPED_PREFIX
    ensures Is4(ip) ==> To4(ip).value == As16(ip) % Pow2(32)
  {
    if ip.V4? {
      Quotient(As16(ip), Pow2(32), MAPPED_PREFIX, ip.a);
    }
  }

  /** Under a common prefix, only the low part matters. */
  lemma LowPart(x: nat, y: nat, h: nat, w: nat)
    requires h <= w && x / Pow2(w) == y / Pow2(w)
    ensures x / Pow2(h) == y / Pow2(h) <==> (x % Pow2(w)) / Pow2(h) == (y % Pow2(w)) / Pow2(h)
  {
    LowQuotient(x, h, w);
    LowQuotient(y, h, w);
  }

  lemma LowQuotient(x: nat, h: nat, w: nat)
    requires h <= w
    ensures x / Pow2(h) == (x / Pow2(w)) * Pow2(w - h) + (x % Pow2(w)) / Pow2(h)
  {
    Pow2Sum(h, w - h);
    SplitQuotient(x, Pow2(h), Pow2(w - h));
  }

  /** An aligned block that holds an embedded IPv4 address is an IPv4 block, or lies around them all. */
  lemma MappedBlock(n: Net, x: nat)
    requires Aligned(n) && InBlock(n, x) && x / Pow2(32) == MAPPED_PREFIX
    ensures Is4(n.ip) ==> n.HostBits() <= 32
    ensures !Is4(n.ip) ==> AroundMapped(n)
  {
    Embedded(n.ip);
    Quotient(MAPPED_PREFIX * Pow2(32), Pow2(32), MAPPED_PREFIX, 0);
    if n.HostBits() <= 32 {
      SameCoarser(x, As16(n.ip), n.HostBits(), 32);
    } else {
      SameCoarser(x, MAPPED_PREFIX * Pow2(32), 32, n.HostBits());
      if Is4(n.ip) {
        WideIsNotMapped(n);
      }
    }
  }

  /** Aligning to more than 32 bits clears a bit that an embedded IPv4 address has set. */
  lemma WideIsNotMapped(n: Net)
    requires Aligned(n) && n.HostBits() > 32
    ensures !Is4(n.ip)
  {
    Embedded(n.ip);
    Pow2Sum(32, n.HostBits() - 32);
    EvenQuotient(As16(n.ip), Pow2(32), Pow2(n.HostBits() - 33));
  }

  lemma ContainsIff(n: Net, ip: IP)
    requires Aligned(n) && ip.a < Pow2(ip.Bits())
    ensures Contains(n, ip) <==> Is4(n.ip) == Is4(ip) && InBlock(n, As16(ip))
  {
    Embedded(n.ip);
    Embedded(ip);
    if Is4(n.ip) && Is4(ip) {
      if n.HostBits() > 32 {
        WideIsNotMapped(n);
      }
      LowPart(As16(n.ip), As16(ip), n.HostBits(), 32);
    }
  }

  /** Blocks of aligned powers of two are nested or disjoint (section 3.1 of RFC 4632): if they share an address, the
      one with fewer host bits starts inside the other. */
  lemma NestedOrDisjoint(n1: Net, n2: Net)
    ensures n1.HostBits() <= n2.HostBits() ==> (Share(n1, n2) <==> InBlock(n2, As16(n1.ip)))
    ensures n2.HostBits() <= n1.HostBits() ==> (Share(n1, n2) <==> InBlock(n1, As16(n2.ip)))
  {
    assert InBlock(n1, As16(n1.ip)) && InBlock(n2, As16(n2.ip));
    forall x: nat | InBlock(n1, x) && InBlock(n2, x)
      ensures n1.HostBits() <= n2.HostBits() ==> InBlock(n2, As16(n1.ip))
      ensures n2.HostBits() <= n1.HostBits() ==> InBlock(n1, As16(n2.ip))
    {
      if n1.HostBits() <= n2.HostBits() {
        SameCoarser(x, As16(n1.ip), n1.HostBits(), n2.HostBits());
      }
      if n2.HostBits() <= n1.HostBits() {
        SameCoarser(x, As16(n2.ip), n2.HostBits(), n1.HostBits());
      }
    }
  }

  /** For aligned networks the code's test finds a common address, except that it never compares an IPv4 network with an
      IPv6 network around all embedded IPv4 addresses. */
  lemma IntersectIff(n1: Net, n2: Net)
    requires Aligned(n1) && Aligned(n2)
    ensures NetworksIntersect(n1, n2) <==>
            Share(n1, n2) && !(Is4(n1.ip) && AroundMapped(n2)) && !(Is4(n2.ip) && AroundMapped(n1))
    ensures Is4(n1.ip) == Is4(n2.ip) ==> (NetworksIntersect(n1, n2) <==> Share(n1, n2))
  {
    NestedOrDisjoint(n1, n2);
    ContainsIff(n1, n2.ip);
    ContainsIff(n2, n1.ip);
    if Share(n1, n2) {
      var x: nat :| InBlock(n1, x) && InBlock(n2, x);
      if Is4(n1.ip) && !Is4(n2.ip) {
        SharedMapped(n1, n2, x);
      } else if Is4(n2.ip) && !Is4(n1.ip) {
        SharedMapped(n2, n1, x);
      }
    }
    if Contains(n2, n1.ip) {
      assert InBlock(n1, As16(n1.ip));
    }
    if Contains(n1, n2.ip) {
      assert InBlock(n2, As16(n2.ip));
    }
  }

  lemma SharedMapped(n4: Net, n6: Net, x: nat)
    requires Aligned(n4) && Aligned(n6) && Is4(n4.ip) && !Is4(n6.ip) && InBlock(n4, x) && InBlock(n6, x)
    ensures AroundMapped(n6)
  {
    Embedded(n4.ip);
    if n4.HostBits() > 32 {
      WideIsNotMapped(n4);
    }
    SameCoarser(x, As16(n4.ip), n4.HostBits(), 32);
    MappedBlock(n6, x);
  }

  /** Every such pair overlaps, and the test does not see it: for instance 10.0.0.0/8 in ::/0. */
  lemma AroundMappedIsMissed(n4: Net, n6: Net)
    requires Aligned(n4) && Aligned(n6) && Is4(n4.ip) && AroundMapped(n6)
    ensures Share(n4, n6) && !NetworksIntersect(n4, n6) && !NetworksIntersect(n6, n4)
  {
    var x, mapped := As16(n4.ip), MAPPED_PREFIX * Pow2(32);
    Embedded(n4.ip);
    Embedded(n6.ip);
    Quotient(mapped, Pow2(32), MAPPED_PREFIX, 0);
    if n6.HostBits() <= 32 {
      SameCoarser(mapped, As16(n6.ip), n6.HostBits(), 32);
    }
    SameCoarser(x, mapped, 32, n6.HostBits());
    assert InBlock(n4, x) && InBlock(n6, x);
    ContainsIff(n4, n6.ip);
    ContainsIff(n6, n4.ip);
  }

  const EVERYTHING := Cidr(V6(0), 0)

  lemma EverythingIsAroundMapped()
    ensures EVERYTHING.Valid() && Aligned(EVERYTHING) && AroundMapped(EVERYTHING)
  {
    var mapped := MAPPED_PREFIX * Pow2(32);
    SixteenBits(32, 80);
    Quotient(mapped, Pow2(128), 0, mapped);
    Quotient(0, Pow2(128), 0, 0);
    Quotient(0, Pow2(32), 0, 0);
  }

  lemma Pow2Of16()
    ensures Pow2(16) == 0x10000
  {
    assert Pow2(4) == 16;
    Pow2Sum(4, 4);
    Pow2Sum(8, 8);
  }

  lemma SixteenBits(w: nat, h: nat)
    ensures MAPPED_PREFIX * Pow2(w) < Pow2(16 + w + h)
  {
    Pow2Of16();
    Pow2Sum(16, w + h);
    Pow2Sum(w, h);
    AtLeast(Pow2(h), Pow2(w));
  }

  /** Unmasking is aligning: exactly the texts of aligned blocks are network CIDRs, and they stand for themselves. */
  lemma IsValidCIDRIff(parse: string -> Option<Net>, text: string)
    ensures IsValidCIDR(parse, text).Some? <==> parse(text).Some? && Aligned(parse(text).value)
    ensures IsValidCIDR(parse, text).Some? ==> IsValidCIDR(parse, text) == parse(text)
  {
    if parse(text).Some? {
      MaskKeepsIff(parse(text).value);
    }
  }

  lemma MaskKeepsIff(c: Net)
    ensures Equal(c.ip, Mask(c).ip) <==> Aligned(c)
    ensures Aligned(c) ==> Mask(c) == c
  {
    var d := Pow2(c.HostBits());
    DownKeepsIff(c.ip.a, d);
    if c.ip.V4? {
      Pow2Sum(c.HostBits(), 32 - c.HostBits());
      AddMultiple(c.ip.a, d, MAPPED_PREFIX, Pow2(32 - c.HostBits()));
    }
  }

  lemma DownKeepsIff(a: nat, d: nat)
    requires d > 0
    ensures Down(a, d) == a <==> a % d == 0
  {
  }

  lemma AddMultiple(a: nat, d: nat, k: nat, m: nat)
    requires d > 0
    ensures (k * (d * m) + a) % d == a % d
  {
    Divided(a, d);
    Nested(k, d * m, d, m, a / d, a % d);
    Quotient(k * (d * m) + a, d, k * m + a / d, a % d);
  }

  // ---- The validation ----

  datatype Field = Services | Pods

  datatype FieldError =
    | NotExactlyOne(field: Field)
    | NotANetwork(field: Field, text: string)
    | Overlap(services: string, pods: string)

  /** What is wrong with one list of blocks by itself. */
  function Complaint(parse: string -> Option<Net>, field: Field, blocks: seq<string>): seq<FieldError> {
    if |blocks| != 1 then [NotExactlyOne(field)]
    else if IsValidCIDR(parse, blocks[0]).None? then [NotANetwork(field, blocks[0])]
    else []
  }

  /** Exactly one block, and that a network. */
  predicate OneNetwork(parse: string -> Option<Net>, blocks: seq<string>) {
    |blocks| == 1 && parse(blocks[0]).Some? && Aligned(parse(blocks[0]).value)
  }

  ghost predicate Overlapping(s: Net, p: Net) {
    Share(s, p) && !(Is4(s.ip) && AroundMapped(p)) && !(Is4(p.ip) && AroundMapped(s))
  }

  lemma NoComplaintIff(parse: string -> Option<Net>, field: Field, blocks: seq<string>)
    ensures Complaint(parse, field, blocks) == [] <==> OneNetwork(parse, blocks)
    ensures OneNetwork(parse, blocks) ==> IsValidCIDR(parse, blocks[0]) == parse(blocks[0])
  {
    if |blocks| == 1 {
      IsValidCIDRIff(parse, blocks[0]);
    }
  }

  /** The errors that name a field: a list without exactly one block, or one block that is no network, which is
      named. */
  ghost predicate Names(parse: string -> Option<Net>, errors: seq<FieldError>, services: seq<string>,
                        pods: seq<string>) {
    && (NotExactlyOne(Services) in errors <==> |services| != 1)
    && (NotExactlyOne(Pods) in errors <==> |pods| != 1)
    && (forall t :: NotANetwork(Services, t) in errors <==> services == [t] && !OneNetwork(parse, services))
    && (forall t :: NotANetwork(Pods, t) in errors <==> pods == [t] && !OneNetwork(parse, pods))
  }

  lemma ComplaintsName(parse: string -> Option<Net>, services: seq<string>, pods: seq<string>)
    ensures Names(parse, Complaint(parse, Services, services) + Complaint(parse, Pods, pods), services, pods)
  {
    NoComplaintIff(parse, Services, services);
    NoComplaintIff(parse, Pods, pods);
    assert |services| == 1 ==> services == [services[0]];
    assert |pods| == 1 ==> pods == [pods[0]];
  }

  /** No errors exactly when each list is one network and the two networks have no address in common (up to the
      exception above); otherwise the errors of both lists, the services' first, or else the overlap. */
  method ValidateCIDRBlocks(parse: string -> Option<Net>, services: seq<string>, pods: seq<string>)
    returns (errors: seq<FieldError>)
    ensures errors == [] <==>
            && OneNetwork(parse, services) && OneNetwork(parse, pods)
            && !Overlapping(parse(services[0]).value, parse(pods[0]).value)
    ensures !OneNetwork(parse, services) || !OneNetwork(parse, pods) ==>
              errors == Complaint(parse, Services, services) + Complaint(parse, Pods, pods)
    ensures OneNetwork(parse, services) && OneNetwork(parse, pods) && errors != [] ==>
              errors == [Overlap(services[0], pods[0])]
    ensures Names(parse, errors, services, pods)
  {
    ComplaintsName(parse, services, pods);
    var blocks := [(Services, services), (Pods, pods)];
    var networks: seq<Option<Net>> := [None, None];
    errors := [];
    NoComplaintIff(parse, Services, services);
    NoComplaintIff(parse, Pods, pods);
    for i := 0 to 2
      invariant errors == (if i > 0 then Complaint(parse, Services, services) else [])
                          + (if i > 1 then Complaint(parse, Pods, pods) else [])
      invariant |networks| == 2
      invariant i > 0 && OneNetwork(parse, services) ==> networks[0] == parse(services[0])
      invariant i > 1 && OneNetwork(parse, pods) ==> networks[1] == parse(pods[0])
    {
      var (field, block) := blocks[i];
      if |block| != 1 {
        errors := errors + [NotExactlyOne(field)];
        continue;
      }
      var network := IsValidCIDR(parse, block[0]);
      if network.None? {
        errors := errors + [NotANetwork(field, block[0])];
        continue;
      }
      networks := networks[i := network];
    }
    if |errors| > 0 {
      return;
    }
    var s: Net, p: Net := networks[0].value, networks[1].value;
    IntersectIff(s, p);
    if NetworksIntersect(s, p) {
      return [Overlap(services[0], pods[0])];
    }
  }
}
