/** SNMP manager entries (switch-configurator/src/allowed_hosts.rs, models.rs): between
    `address/prefix` and the address and netmask of section 3.1 of RFC 4632. */
module AllowedHosts {
  import opened Basics
  import opened Models
  import opened PortRange

  // ---- 32-bit numbers ----

  const WORD := 0x1_0000_0000

  function Pow2(k: nat): (r: nat)
    ensures r > 0
  {
    if k == 0 then 1 else 2 * Pow2(k - 1)
  }

  /** `u32::MAX << k`: what runs over the top is lost. */
  function ShiftedOnes(k: nat): nat { U32_MAX * Pow2(k) % WORD }

  function MaskOf(prefix: nat): nat
    requires prefix <= 32
  {
    if prefix == 0 then 0 else ShiftedOnes(32 - prefix)
  }

  /** `u32::count_ones`. */
  function CountOnes(n: nat): nat { if n == 0 then 0 else n % 2 + CountOnes(n / 2) }

  predicate Bit(n: nat, i: nat) { n / Pow2(i) % 2 == 1 }

  /** Ones, as many as the prefix says, from the top; then zeros. */
  predicate OnesThenZeros(mask: nat, prefix: nat) {
    forall i :: 0 <= i < 32 ==> (Bit(mask, i) <==> i >= 32 - prefix)
  }

  predicate Contiguous(mask: nat) { exists p :: 0 <= p <= 32 && OnesThenZeros(mask, p) }

  lemma {:induction false} Pow2Add(a: nat, b: nat)
    ensures Pow2(a + b) == Pow2(a) * Pow2(b)
  {
    if a > 0 { Pow2Add(a - 1, b); }
  }

  lemma Pow2Of32()
    ensures Pow2(32) == WORD
  {
    assert Pow2(8) == 256;
    Pow2Add(8, 8);
    Pow2Add(16, 16);
  }

  lemma ShiftedOnesIs(h: nat)
    requires 0 < h <= WORD
    ensures U32_MAX * h % WORD == WORD - h
  {
    assert U32_MAX * h == (h - 1) * WORD + (WORD - h);
  }

  lemma OneLess(q: nat, h: nat)
    ensures (q - 1) * h == q * h - h
  {
  }

  /** The mask is all of the word but the host part. */
  lemma MaskIs(prefix: nat)
    requires prefix <= 32
    ensures MaskOf(prefix) == WORD - Pow2(32 - prefix) == (Pow2(prefix) - 1) * Pow2(32 - prefix)
  {
    var q, h := Pow2(prefix), Pow2(32 - prefix);
    Pow2Of32();
    Pow2Add(prefix, 32 - prefix);
    OneLess(q, h);
    if prefix > 0 {
      assert (q - 1) * h >= 0;
      ShiftedOnesIs(h);
    }
  }

  lemma {:induction false} OnesOfShifted(n: nat, k: nat)
    ensures CountOnes(n * Pow2(k)) == CountOnes(n)
  {
    if k > 0 {
      OnesOfShifted(n, k - 1);
      var m := n * Pow2(k - 1);
      assert n * Pow2(k) == 2 * m;
    }
  }

  lemma {:induction false} OnesOfAllOnes(p: nat)
    ensures CountOnes(Pow2(p) - 1) == p
  {
    if p > 0 {
      OnesOfAllOnes(p - 1);
      assert Pow2(p) - 1 == 2 * (Pow2(p - 1) - 1) + 1;
    }
  }

  /** The population count of a prefix mask is the prefix. */
  lemma OnesOfMask(prefix: nat)
    requires prefix <= 32
    ensures CountOnes(MaskOf(prefix)) == prefix
  {
    MaskIs(prefix);
    OnesOfShifted(Pow2(prefix) - 1, 32 - prefix);
    OnesOfAllOnes(prefix);
  }

  lemma HalveBoth(m: nat, d: nat)
    requires d > 0
    ensures 2 * m / (2 * d) == m / d
  {
    var q, r := m / d, m % d;
    assert 2 * m == q * (2 * d) + 2 * r && 0 <= 2 * r < 2 * d;
    QuotientIs(2 * m, 2 * d, q, 2 * r);
  }

  lemma HalveOdd(m: nat, d: nat)
    requires d > 0
    ensures (2 * m + 1) / (2 * d) == m / d
  {
    var q, r := m / d, m % d;
    assert 2 * m + 1 == q * (2 * d) + (2 * r + 1) && 2 * r + 1 < 2 * d;
    QuotientIs(2 * m + 1, 2 * d, q, 2 * r + 1);
  }

  lemma {:induction false} Apart(a: nat, b: nat, d: nat)
    requires a > b
    ensures a * d >= b * d + d
  {
    assert a * d == (a - 1) * d + d;
    if a > b + 1 { Apart(a - 1, b, d); }
  }

  lemma QuotientIs(n: nat, d: nat, q: nat, r: nat)
    requires d > 0 && n == q * d + r && r < d
    ensures n / d == q
  {
    var q', r' := n / d, n % d;
    assert q' * d + r' == q * d + r;
    if q' > q { Apart(q', q, d); }
    if q > q' { Apart(q, q', d); }
  }

  lemma BitOfEven(m: nat, i: nat)
    ensures Bit(2 * m, i) <==> i > 0 && Bit(m, i - 1)
  {
    if i > 0 { HalveBoth(m, Pow2(i - 1)); }
  }

  lemma BitOfOdd(m: nat, i: nat)
    ensures Bit(2 * m + 1, i) <==> i == 0 || Bit(m, i - 1)
  {
    if i > 0 { HalveOdd(m, Pow2(i - 1)); }
  }

  lemma {:induction false} BitOfShifted(n: nat, k: nat, i: nat)
    ensures Bit(n * Pow2(k), i) <==> i >= k && Bit(n, i - k)
  {
    if k > 0 {
      var m := n * Pow2(k - 1);
      assert n * Pow2(k) == 2 * m;
      BitOfEven(m, i);
      if i > 0 { BitOfShifted(n, k - 1, i - 1); }
    }
  }

  lemma {:induction false} BitOfAllOnes(p: nat, i: nat)
    ensures Bit(Pow2(p) - 1, i) <==> i < p
  {
    if p == 0 {
      assert 0 / Pow2(i) == 0;
    } else {
      BitOfOdd(Pow2(p - 1) - 1, i);
      if i > 0 { BitOfAllOnes(p - 1, i - 1); }
    }
  }

  lemma MaskBits(prefix: nat)
    requires prefix <= 32
    ensures OnesThenZeros(MaskOf(prefix), prefix)
  {
    MaskIs(prefix);
    forall i | 0 <= i < 32 ensures Bit(MaskOf(prefix), i) <==> i >= 32 - prefix {
      BitOfShifted(Pow2(prefix) - 1, 32 - prefix, i);
      if i >= 32 - prefix { BitOfAllOnes(prefix, i - (32 - prefix)); }
    }
  }

  lemma {:induction false} BitsDetermine(a: nat, b: nat, n: nat)
    requires a < Pow2(n) && b < Pow2(n) && forall i :: 0 <= i < n ==> (Bit(a, i) <==> Bit(b, i))
    ensures a == b
  {
    if n > 0 {
      forall i | 0 <= i < n - 1 ensures Bit(a / 2, i) <==> Bit(b / 2, i) {
        BitOfHalf(a, i);
        BitOfHalf(b, i);
        assert Bit(a, i + 1) <==> Bit(b, i + 1);
      }
      BitsDetermine(a / 2, b / 2, n - 1);
      assert Bit(a, 0) <==> Bit(b, 0);
      assert Pow2(0) == 1;
    }
  }

  lemma BitOfHalf(a: nat, i: nat)
    ensures Bit(a / 2, i) <==> Bit(a, i + 1)
  {
    if a % 2 == 0 { BitOfEven(a / 2, i + 1); } else { BitOfOdd(a / 2, i + 1); }
  }

  /** The prefix read off a mask: its population count, if that prefix has that mask. */
  function PrefixOf(mask: nat): Option<nat>
    requires mask < WORD
  {
    var prefix := CountOnes(mask);
    OnesAtMost(mask, 32);
    if prefix != 0 && mask != ShiftedOnes(32 - prefix) then None
    else if prefix == 0 && mask != 0 then None
    else Some(prefix)
  }

  lemma {:induction false} OnesAtMost(n: nat, k: nat)
    requires n < Pow2(k) || (k == 32 && n < WORD)
    ensures CountOnes(n) <= k
    decreases k
  {
    if k == 32 { Pow2Of32(); }
    if n > 0 { OnesAtMost(n / 2, k - 1); }
  }

  /** It undoes `MaskOf`, and accepts exactly the contiguous masks. */
  lemma PrefixOfExact(mask: nat)
    requires mask < WORD
    ensures forall p :: 0 <= p <= 32 ==> (PrefixOf(mask) == Some(p) <==> mask == MaskOf(p))
    ensures PrefixOf(mask).Some? <==> Contiguous(mask)
    ensures PrefixOf(mask).Some? ==> PrefixOf(mask).value <= 32
  {
    Pow2Of32();
    OnesAtMost(mask, 32);
    forall p | 0 <= p <= 32 ensures PrefixOf(mask) == Some(p) <==> mask == MaskOf(p) { OnesOfMask(p); }
    if PrefixOf(mask).Some? {
      MaskBits(PrefixOf(mask).value);
    }
    if Contiguous(mask) {
      var p :| 0 <= p <= 32 && OnesThenZeros(mask, p);
      MaskIs(p);
      MaskBits(p);
      BitsDetermine(mask, MaskOf(p), 32);
    }
  }

  // ---- addresses as text ----

  /** `split_once`. */
  function Cut(s: string, c: char): Option<(string, string)> {
    var k := IndexOf(s, c);
    if k == |s| then None else Some((s[..k], s[k + 1..]))
  }

  /** A decimal without sign or leading zeros. */
  predicate PlainDecimal(s: string) {
    s != [] && AllDigits(s) && (|s| == 1 || s[0] != '0')
  }

  function Octet(s: string): Option<nat> {
    if PlainDecimal(s) && |s| <= 3 && FromDecimal(s) <= 255 then Some(FromDecimal(s)) else None
  }

  function Quad(w: nat, x: nat, y: nat, z: nat): nat { ((w * 256 + x) * 256 + y) * 256 + z }

  /** Parsing an IPv4 address, as Rust's standard library does: four plain octets. */
  function ParseIpv4(s: string): (r: Option<nat>)
    ensures r.Some? ==> r.value < WORD
  {
    match Cut(s, '.')
    case None => None
    case Some((a, s1)) =>
      match Cut(s1, '.')
      case None => None
      case Some((b, s2)) =>
        match Cut(s2, '.')
        case None => None
        case Some((c, d)) =>
          match (Octet(a), Octet(b), Octet(c), Octet(d))
          case (Some(w), Some(x), Some(y), Some(z)) =>
            OctetExact(a, w); OctetExact(b, x); OctetExact(c, y); OctetExact(d, z);
            Some(Quad(w, x, y, z))
          case _ => None
  }

  function Dotted(w: nat, x: nat, y: nat, z: nat): string {
    ToDecimal(w) + ['.'] + (ToDecimal(x) + ['.'] + (ToDecimal(y) + ['.'] + ToDecimal(z)))
  }

  function FormatIpv4(n: nat): string {
    Dotted(n / 256 / 256 / 256, n / 256 / 256 % 256, n / 256 % 256, n % 256)
  }

  lemma {:induction false} FromDecimalPositive(s: string)
    requires AllDigits(s) && s != [] && s[0] != '0'
    ensures FromDecimal(s) > 0
  {
    if |s| > 1 { FromDecimalPositive(s[..|s| - 1]); }
  }

  lemma {:induction false} DecimalCanonical(s: string)
    requires PlainDecimal(s)
    ensures ToDecimal(FromDecimal(s)) == s
  {
    var front, last := s[..|s| - 1], s[|s| - 1];
    assert s == front + [last];
    assert Digit(DigitValue(last)) == last;
    if |s| > 1 {
      FromDecimalPositive(front);
      DecimalCanonical(front);
      var f, d := FromDecimal(front), DigitValue(last);
      assert (f * 10 + d) / 10 == f && (f * 10 + d) % 10 == d;
    } else {
      assert FromDecimal(front) == 0;
    }
  }

  lemma {:induction false} ToDecimalPlain(n: nat)
    ensures PlainDecimal(ToDecimal(n)) && (n > 0 ==> ToDecimal(n)[0] != '0') && (n < 1000 ==> |ToDecimal(n)| <= 3)
  {
    if n >= 10 { ToDecimalPlain(n / 10); }
    if n >= 100 { ToDecimalPlain(n / 10 / 10); }
  }

  lemma OctetExact(s: string, n: nat)
    ensures Octet(s) == Some(n) <==> n <= 255 && s == ToDecimal(n)
  {
    if Octet(s) == Some(n) { DecimalCanonical(s); }
    ToDecimalPlain(n);
    DecimalRoundTrip(n);
  }

  lemma CutOf(a: string, c: char, b: string)
    requires c !in a
    ensures Cut(a + [c] + b, c) == Some((a, b))
  {
    var s := a + [c] + b;
    IndexIs(s, c, |a|);
    assert s[..|a|] == a && s[|a| + 1..] == b;
  }

  lemma CutJoins(s: string, c: char)
    ensures Cut(s, c).Some? ==> s == Cut(s, c).value.0 + [c] + Cut(s, c).value.1
    ensures Cut(s, c).Some? ==> c !in Cut(s, c).value.0
    ensures Cut(s, c).None? ==> c !in s
  {
    var k := IndexOf(s, c);
    assert s[..|s|] == s;
  }

  lemma ParseDotted(w: nat, x: nat, y: nat, z: nat)
    requires w <= 255 && x <= 255 && y <= 255 && z <= 255
    ensures ParseIpv4(Dotted(w, x, y, z)) == Some(Quad(w, x, y, z))
  {
    var tail2 := ToDecimal(y) + ['.'] + ToDecimal(z);
    var tail1 := ToDecimal(x) + ['.'] + tail2;
    CutOf(ToDecimal(w), '.', tail1);
    CutOf(ToDecimal(x), '.', tail2);
    CutOf(ToDecimal(y), '.', ToDecimal(z));
    OctetExact(ToDecimal(w), w);
    OctetExact(ToDecimal(x), x);
    OctetExact(ToDecimal(y), y);
    OctetExact(ToDecimal(z), z);
  }

  lemma QuadBack(n: nat)
    requires n < WORD
    ensures n / 256 / 256 / 256 <= 255
    ensures Quad(n / 256 / 256 / 256, n / 256 / 256 % 256, n / 256 % 256, n % 256) == n
  {
    var h := n / 256;
    var g := h / 256;
    assert n == h * 256 + n % 256 && h == g * 256 + h % 256 && g == g / 256 * 256 + g % 256;
  }

  lemma Ipv4RoundTrip(n: nat)
    requires n < WORD
    ensures ParseIpv4(FormatIpv4(n)) == Some(n)
  {
    QuadBack(n);
    ParseDotted(n / 256 / 256 / 256, n / 256 / 256 % 256, n / 256 % 256, n % 256);
  }

  lemma FormatQuad(w: nat, x: nat, y: nat, z: nat)
    requires w <= 255 && x <= 255 && y <= 255 && z <= 255
    ensures FormatIpv4(Quad(w, x, y, z)) == Dotted(w, x, y, z)
  {
    var g := w * 256 + x;
    var h := g * 256 + y;
    assert (h * 256 + z) / 256 == h && (g * 256 + y) / 256 == g && (w * 256 + x) / 256 == w;
  }

  /** The octets of an address that parses. */
  lemma QuadOfText(s: string) returns (w: nat, x: nat, y: nat, z: nat)
    requires ParseIpv4(s).Some?
    ensures w <= 255 && x <= 255 && y <= 255 && z <= 255
    ensures ParseIpv4(s) == Some(Quad(w, x, y, z)) && s == Dotted(w, x, y, z)
  {
    CutJoins(s, '.');
    var (a, s1) := Cut(s, '.').value;
    CutJoins(s1, '.');
    var (b, s2) := Cut(s1, '.').value;
    CutJoins(s2, '.');
    var (c, d) := Cut(s2, '.').value;
    w, x, y, z := Octet(a).value, Octet(b).value, Octet(c).value, Octet(d).value;
    OctetExact(a, w);
    OctetExact(b, x);
    OctetExact(c, y);
    OctetExact(d, z);
  }

  /** An address that parses is spelled in the one way it is printed. */
  lemma Ipv4Canonical(s: string)
    requires ParseIpv4(s).Some?
    ensures FormatIpv4(ParseIpv4(s).value) == s && '/' !in s
  {
    var w, x, y, z := QuadOfText(s);
    FormatQuad(w, x, y, z);
    DottedHasNoSlash(w, x, y, z);
  }

  lemma DottedHasNoSlash(w: nat, x: nat, y: nat, z: nat)
    ensures '/' !in Dotted(w, x, y, z)
  {
    var tail2 := ToDecimal(y) + ['.'] + ToDecimal(z);
    assert '/' !in tail2;
    var tail1 := ToDecimal(x) + ['.'] + tail2;
    assert '/' !in tail1;
  }

  // ---- manager entries ----

  /** `str::parse` for unsigned numbers: an optional plus sign and digits. */
  function ParseUnsigned(s: string, max: nat): Option<nat> {
    var digits := if s != [] && s[0] == '+' then s[1..] else s;
    if digits == [] || !AllDigits(digits) || FromDecimal(digits) > max then None else Some(FromDecimal(digits))
  }

  /** Address and prefix text of `address[/prefix]`. */
  function AddressOf(network: string): string {
    match Cut(network, '/') { case Some((a, p)) => a case None => network }
  }

  function PrefixTextOf(network: string): Option<string> {
    match Cut(network, '/') { case Some((a, p)) => Some(p) case None => None }
  }

  function PrefixLength(network: string): Option<nat> {
    match PrefixTextOf(network)
    case None => Some(32)
    case Some(text) => ParseUnsigned(text, U32_MAX)
  }

  /** `host_to_fortios`: address and netmask, both as text. */
  function HostToFortios(host: AllowedHost): Result<(string, string)> {
    match host
    case AutoHost => Err
    case Network(network) =>
      match (ParseIpv4(AddressOf(network)), PrefixLength(network))
      case (Some(ip), Some(prefix)) => if prefix > 32 then Err else Ok((FormatIpv4(ip), FormatIpv4(MaskOf(prefix))))
      case _ => Err
  }

  /** `host_from_fortios`. */
  function HostFromFortios(ip: string, mask: string): Option<AllowedHost> {
    match (ParseIpv4(ip), ParseIpv4(mask))
    case (Some(address), Some(bits)) =>
      (match PrefixOf(bits)
       case None => None
       case Some(prefix) =>
         Some(Network(if prefix == 32 then FormatIpv4(address)
                      else FormatIpv4(address) + "/" + ToDecimal(prefix))))
    case _ => None
  }

  /** An IPv4 entry in its one spelling: no prefix for a single host, a plain one otherwise. */
  predicate Canonical(network: string) {
    match PrefixTextOf(network)
    case None => true
    case Some(text) => PlainDecimal(text) && FromDecimal(text) < 32
  }

  lemma EntryWithPrefix(address: string, prefix: nat)
    requires '/' !in address && prefix <= U32_MAX
    ensures AddressOf(address + "/" + ToDecimal(prefix)) == address
    ensures PrefixLength(address + "/" + ToDecimal(prefix)) == Some(prefix)
  {
    CutOf(address, '/', ToDecimal(prefix));
    DecimalRoundTrip(prefix);
    assert ToDecimal(prefix)[0] != '+';
  }

  lemma EntryWithout(address: string)
    requires '/' !in address
    ensures AddressOf(address) == address && PrefixLength(address) == Some(32)
  {
  }

  /** Exactly the contiguous masks are accepted. */
  lemma FromFortiosAccepts(ip: string, mask: string)
    ensures HostFromFortios(ip, mask).Some? <==>
      ParseIpv4(ip).Some? && ParseIpv4(mask).Some? && Contiguous(ParseIpv4(mask).value)
  {
    if ParseIpv4(mask).Some? { PrefixOfExact(ParseIpv4(mask).value); }
  }

  /** How an address and a prefix are spelled. */
  function Spelled(address: string, prefix: nat): string {
    if prefix == 32 then address else address + "/" + ToDecimal(prefix)
  }

  lemma FromFortiosSpells(address: string, prefix: nat)
    requires ParseIpv4(address).Some? && prefix <= 32
    ensures HostFromFortios(address, FormatIpv4(MaskOf(prefix))) == Some(Network(Spelled(address, prefix)))
  {
    Ipv4RoundTrip(MaskOf(prefix));
    PrefixOfExact(MaskOf(prefix));
    Ipv4Canonical(address);
  }

  lemma SpelledExact(network: string)
    requires PrefixLength(network).Some? && PrefixLength(network).value <= 32
    ensures network == Spelled(AddressOf(network), PrefixLength(network).value) <==> Canonical(network)
  {
    var address, prefix := AddressOf(network), PrefixLength(network).value;
    CutJoins(network, '/');
    match PrefixTextOf(network) {
      case None =>
      case Some(text) =>
        assert network == address + ['/'] + text;
        assert |network| > |address|;
        ToDecimalPlain(prefix);
        DecimalRoundTrip(prefix);
        if PlainDecimal(text) { DecimalCanonical(text); }
        if network == address + "/" + ToDecimal(prefix) { SameTailText(address, text, ToDecimal(prefix)); }
    }
  }

  lemma SameTailText(a: string, x: string, y: string)
    requires a + ['/'] + x == a + "/" + y
    ensures x == y
  {
    assert x == (a + ['/'] + x)[|a| + 1..] && y == (a + "/" + y)[|a| + 1..];
  }

  lemma ToFortiosOfSpelled(address: string, prefix: nat)
    requires ParseIpv4(address).Some? && prefix <= 32
    ensures HostToFortios(Network(Spelled(address, prefix))) == Ok((address, FormatIpv4(MaskOf(prefix))))
  {
    Ipv4Canonical(address);
    if prefix == 32 { EntryWithout(address); } else { EntryWithPrefix(address, prefix); }
  }

  /** Reading address and netmask and writing them back gives the same text, down to /0 and up to /32. */
  lemma FromFortiosAndBack(ip: string, mask: string)
    requires HostFromFortios(ip, mask).Some?
    ensures HostToFortios(HostFromFortios(ip, mask).value) == Ok((ip, mask))
  {
    var bits := ParseIpv4(mask).value;
    Ipv4Canonical(mask);
    PrefixOfExact(bits);
    FromFortiosSpells(ip, PrefixOf(bits).value);
    ToFortiosOfSpelled(ip, PrefixOf(bits).value);
  }

  /** Writing an entry and reading it back gives it exactly when it is canonically spelled. */
  lemma ToFortiosAndBack(network: string)
    requires HostToFortios(Network(network)).Ok?
    ensures var (ip, mask) := HostToFortios(Network(network)).value;
      HostFromFortios(ip, mask) == Some(Network(network)) <==> Canonical(network)
  {
    var address, prefix := AddressOf(network), PrefixLength(network).value;
    Ipv4Canonical(address);
    FromFortiosSpells(address, prefix);
    SpelledExact(network);
  }

  /** The netmask written for an entry has exactly its prefix's bits set. */
  lemma ToFortiosMask(network: string)
    requires HostToFortios(Network(network)).Ok?
    ensures PrefixLength(network).value <= 32
    ensures var mask := ParseIpv4(HostToFortios(Network(network)).value.1);
      mask.Some? && OnesThenZeros(mask.value, PrefixLength(network).value)
  {
    var prefix := PrefixLength(network).value;
    Ipv4RoundTrip(MaskOf(prefix));
    MaskBits(prefix);
  }

  // ---- entries as a configuration spells them ----

  /** `AllowedHost::try_from`; whether a text is an IPv6 address is left open. */
  function FromText(text: string, isV6: string -> bool): Result<AllowedHost> {
    var value := Trim(text);
    if LowerCase(value) == "auto" then Ok(AutoHost)
    else
      var v4 := ParseIpv4(AddressOf(value)).Some?;
      var max := if v4 then 32 else 128;
      if !v4 && !isV6(AddressOf(value)) then Err
      else match PrefixTextOf(value)
        case None => Ok(Network(value))
        case Some(prefix) =>
          match ParseUnsigned(prefix, 255)
          case Some(n) => if n > max then Err else Ok(Network(if n == max then AddressOf(value) else value))
          case None => Err
  }

  lemma PlainParses(s: string, max: nat)
    requires PlainDecimal(s) && ParseUnsigned(s, max).Some?
    ensures ParseUnsigned(s, max) == Some(FromDecimal(s))
  {
    assert s[0] != '+';
  }

  /** What is accepted as an IPv4 entry is accepted for FortiOS, and is canonically spelled
      unless its prefix has a plus sign or leading zeros. */
  lemma AcceptedEntry(text: string, isV6: string -> bool)
    requires FromText(text, isV6).Ok? && FromText(text, isV6).value.Network?
    requires ParseIpv4(AddressOf(Trim(text))).Some?
    ensures var network := FromText(text, isV6).value.network;
      && HostToFortios(Network(network)).Ok?
      && (Canonical(network) <==> (PrefixTextOf(network).Some? ==> PlainDecimal(PrefixTextOf(network).value)))
  {
    AcceptedValue(Trim(text));
  }

  /** The same for a trimmed entry. */
  lemma AcceptedValue(value: string)
    requires ParseIpv4(AddressOf(value)).Some?
    requires PrefixTextOf(value).Some? ==>
      ParseUnsigned(PrefixTextOf(value).value, 255).Some? && ParseUnsigned(PrefixTextOf(value).value, 255).value <= 32
    ensures HostToFortios(Network(AddressOf(value))).Ok? && Canonical(AddressOf(value)) &&
      PrefixTextOf(AddressOf(value)).None?
    ensures HostToFortios(Network(value)).Ok?
    ensures PrefixTextOf(value).Some? && ParseUnsigned(PrefixTextOf(value).value, 255).value < 32 ==>
      (Canonical(value) <==> PlainDecimal(PrefixTextOf(value).value))
  {
    var address := AddressOf(value);
    Ipv4Canonical(address);
    EntryWithout(address);
    if PrefixTextOf(value).Some? {
      var prefix := PrefixTextOf(value).value;
      if PlainDecimal(prefix) { PlainParses(prefix, 255); }
    }
  }

  lemma SignedTwentyFour()
    ensures ParseUnsigned("+24", 255) == Some(24) && ParseUnsigned("+24", U32_MAX) == Some(24)
  {
    assert "+24"[1..] == "24" && "24"[..1] == "2" && "2"[..0] == [];
    assert FromDecimal("2") == 2 && FromDecimal("24") == 24;
  }

  lemma EntryIsTrimmed(address: string, tail: string)
    requires ParseIpv4(address).Some? && tail != [] && !IsSpace(tail[|tail| - 1])
    ensures Trim(address + "/" + tail) == address + "/" + tail
    ensures LowerCase(address + "/" + tail) != "auto"
  {
    var entry := address + "/" + tail;
    assert entry[0] == address[0] && entry[|entry| - 1] == tail[|tail| - 1];
    TrimTrims(entry);
    assert LowerCase(entry)[0] == entry[0] && "auto"[0] == 'a';
  }

  /** A trimmed IPv4 entry with a prefix below 32 is accepted as it stands. */
  lemma AcceptedAsIs(entry: string, text: string, n: nat, isV6: string -> bool)
    requires Trim(entry) == entry && LowerCase(entry) != "auto" && ParseIpv4(AddressOf(entry)).Some?
    requires PrefixTextOf(entry) == Some(text) && ParseUnsigned(text, 255) == Some(n) && n < 32
    ensures FromText(entry, isV6) == Ok(Network(entry))
  {
  }

  lemma WrittenAs(entry: string, text: string, n: nat)
    requires ParseIpv4(AddressOf(entry)).Some?
    requires PrefixTextOf(entry) == Some(text) && ParseUnsigned(text, U32_MAX) == Some(n) && n <= 32
    ensures HostToFortios(Network(entry)) == Ok((AddressOf(entry), FormatIpv4(MaskOf(n))))
  {
    Ipv4Canonical(AddressOf(entry));
  }

  lemma PartsOf(address: string, text: string)
    requires '/' !in address
    ensures AddressOf(address + "/" + text) == address && PrefixTextOf(address + "/" + text) == Some(text)
  {
    CutOf(address, '/', text);
  }

  /** Such a spelling is accepted as it stands, and comes back from the switch spelled differently. */
  lemma SignedPrefixIsRespelled(address: string, isV6: string -> bool)
    requires ParseIpv4(address).Some?
    ensures FromText(address + "/" + "+24", isV6) == Ok(Network(address + "/" + "+24"))
    ensures var written := HostToFortios(Network(address + "/" + "+24"));
      written.Ok? && HostFromFortios(written.value.0, written.value.1) == Some(Network(Spelled(address, 24)))
    ensures Spelled(address, 24) != address + "/" + "+24"
  {
    Ipv4Canonical(address);
    PartsOf(address, "+24");
    SignedTwentyFour();
    EntryIsTrimmed(address, "+24");
    AcceptedAsIs(address + "/" + "+24", "+24", 24, isV6);
    WrittenAs(address + "/" + "+24", "+24", 24);
    FromFortiosSpells(address, 24);
    assert |ToDecimal(24)| == 2;
  }
}
