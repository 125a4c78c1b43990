/** The port-id grammar (switch-configurator/src/config.rs): comma lists, ranges
    such as `GigabitEthernet1/0/1-5`, and their expansion. */
module PortRange {
  import opened Basics
  import opened Models

  predicate IsDigit(c: char) { '0' <= c <= '9' }

  /** The characters Rust's `trim` removes (Unicode White_Space). */
  predicate IsSpace(c: char) {
    var n := c as int;
    9 <= n <= 13 || n == 0x20 || n == 0x85 || n == 0xA0 || n == 0x1680 || 0x2000 <= n <= 0x200A
    || n == 0x2028 || n == 0x2029 || n == 0x202F || n == 0x205F || n == 0x3000
  }

  function TrimStart(s: string): string {
    if s != [] && IsSpace(s[0]) then TrimStart(s[1..]) else s
  }

  function TrimEnd(s: string): string {
    if s != [] && IsSpace(s[|s| - 1]) then TrimEnd(s[..|s| - 1]) else s
  }

  function Trim(s: string): string { TrimEnd(TrimStart(s)) }

  /** Neither end is a space. */
  predicate Trimmed(s: string) {
    s != [] ==> !IsSpace(s[0]) && !IsSpace(s[|s| - 1])
  }

  /** Where `c` first occurs, or the length. */
  function IndexOf(s: string, c: char): (k: nat)
    ensures k <= |s| && c !in s[..k] && (k < |s| ==> s[k] == c)
  {
    if s == [] || s[0] == c then 0
    else
      var k := IndexOf(s[1..], c) + 1;
      assert s[..k] == [s[0]] + s[1..][..k - 1];
      k
  }

  /** `split(',')`. */
  function SplitCommas(s: string): seq<string>
    decreases |s|
  {
    var k := IndexOf(s, ',');
    if k == |s| then [s] else [s[..k]] + SplitCommas(s[k + 1..])
  }

  // ---- decimals ----

  function Digit(d: nat): char
    requires d < 10
  {
    '0' + d as char
  }

  function DigitValue(c: char): (d: nat)
    requires IsDigit(c)
    ensures d < 10
  {
    c as nat - '0' as nat
  }

  function ToDecimal(n: nat): (s: string)
    ensures s != [] && forall i :: 0 <= i < |s| ==> IsDigit(s[i])
  {
    if n < 10 then [Digit(n)] else ToDecimal(n / 10) + [Digit(n % 10)]
  }

  predicate AllDigits(s: string) { forall i :: 0 <= i < |s| ==> IsDigit(s[i]) }

  function FromDecimal(s: string): nat
    requires AllDigits(s)
  {
    if s == [] then 0 else FromDecimal(s[..|s| - 1]) * 10 + DigitValue(s[|s| - 1])
  }

  lemma {:induction false} DecimalRoundTrip(n: nat)
    ensures FromDecimal(ToDecimal(n)) == n
  {
    if n >= 10 {
      DecimalRoundTrip(n / 10);
      assert ToDecimal(n)[..|ToDecimal(n)| - 1] == ToDecimal(n / 10);
    } else {
      assert ToDecimal(n)[..0] == [];
    }
  }

  // ---- the numeric suffix ----

  /** Where the last run of digits starts. */
  function SuffixStart(s: string): (k: nat)
    ensures k <= |s| && AllDigits(s[k..]) && (k > 0 ==> !IsDigit(s[k - 1]))
  {
    if s == [] || !IsDigit(s[|s| - 1]) then |s|
    else
      var k := SuffixStart(s[..|s| - 1]);
      assert s[k..] == s[..|s| - 1][k..] + [s[|s| - 1]];
      k
  }

  function NumberSuffix(s: string): Result<(string, nat)> {
    var k := SuffixStart(s);
    if k == |s| || FromDecimal(s[k..]) > U32_MAX then Err else Ok((s[..k], FromDecimal(s[k..])))
  }

  /** `extract_number_suffix`: scans backwards over the digits. */
  method ExtractNumberSuffix(s: string) returns (r: Result<(string, nat)>)
    ensures r == NumberSuffix(s)
  {
    var start := |s|;
    assert s[..start] == s;
    while start > 0 && IsDigit(s[start - 1])
      invariant 0 <= start <= |s|
      invariant SuffixStart(s) == SuffixStart(s[..start])
    {
      SuffixStartBack(s, start);
      start := start - 1;
    }
    assert start == SuffixStart(s);
    if start == |s| { return Err; }
    var number := ParseDecimal(s[start..]);
    r := if number > U32_MAX then Err else Ok((s[..start], number));
  }

  lemma SuffixStartBack(s: string, start: nat)
    requires 0 < start <= |s| && IsDigit(s[start - 1])
    ensures SuffixStart(s[..start]) == SuffixStart(s[..start - 1])
  {
    assert s[..start][..start - 1] == s[..start - 1];
  }

  method ParseDecimal(s: string) returns (n: nat)
    requires AllDigits(s)
    ensures n == FromDecimal(s)
  {
    n := 0;
    for k := 0 to |s|
      invariant n == FromDecimal(s[..k])
    {
      assert s[..k + 1][..k] == s[..k];
      n := n * 10 + DigitValue(s[k]);
    }
    assert s[..|s|] == s;
  }

  /** The suffix scan inverts prefix-plus-decimal, up to the largest 32-bit number. */
  lemma NumberSuffixInverts(prefix: string, n: nat)
    requires prefix != [] ==> !IsDigit(prefix[|prefix| - 1])
    ensures NumberSuffix(prefix + ToDecimal(n)) == if n <= U32_MAX then Ok((prefix, n)) else Err
  {
    SuffixStartOf(prefix, ToDecimal(n));
    assert (prefix + ToDecimal(n))[..|prefix|] == prefix && (prefix + ToDecimal(n))[|prefix|..] == ToDecimal(n);
    DecimalRoundTrip(n);
  }

  lemma {:induction false} SuffixStartOf(prefix: string, digits: string)
    requires AllDigits(digits) && (prefix != [] ==> !IsDigit(prefix[|prefix| - 1]))
    ensures SuffixStart(prefix + digits) == |prefix|
  {
    var s := prefix + digits;
    if digits == [] {
      assert s == prefix;
    } else {
      var front := digits[..|digits| - 1];
      assert s[..|s| - 1] == prefix + front;
      SuffixStartOf(prefix, front);
    }
  }

  // ---- parsing a port id ----

  function Ids(prefix: string, first: nat, last: nat): seq<string>
    requires first <= last
  {
    seq(last - first + 1, i requires 0 <= i => prefix + ToDecimal(first + i))
  }

  function RangeOf(start: Result<(string, nat)>, end: Result<(string, nat)>): Result<seq<string>> {
    match (start, end)
    case (Ok((prefix, first)), Ok((endPrefix, last))) =>
      if (endPrefix != "" && prefix != endPrefix) || first > last then Err else Ok(Ids(prefix, first, last))
    case _ => Err
  }

  function ParseRange(startText: string, endText: string): Result<seq<string>> {
    RangeOf(NumberSuffix(Trim(startText)), NumberSuffix(Trim(endText)))
  }

  function ParseSegment(text: string): Result<seq<string>> {
    var segment := Trim(text);
    var dash := IndexOf(segment, '-');
    if dash == |segment| then Ok([segment]) else ParseRange(segment[..dash], segment[dash + 1..])
  }

  const PARSE_SEGMENT := (text: string) => ParseSegment(text)

  function ParseSegments(segments: seq<string>): Result<seq<string>> { Gathered(segments, PARSE_SEGMENT) }

  function ParseId(portId: string): Result<seq<string>> { ParseSegments(SplitCommas(portId)) }

  /** `parse_port_id`. */
  method ParsePortId(portId: string) returns (r: Result<seq<string>>)
    ensures r == ParseId(portId)
  {
    var segments := SplitCommas(portId);
    var result: seq<string> := [];
    for k := 0 to |segments|
      invariant ParseSegments(segments[..k]) == Ok(result)
    {
      var ids := ParseOneSegment(segments[k]);
      if ids.Err? { GatheredFails(segments, PARSE_SEGMENT, k); return Err; }
      GatheredOneMore(segments, PARSE_SEGMENT, k);
      result := result + ids.value;
    }
    assert segments[..|segments|] == segments;
    r := Ok(result);
  }

  method ParseOneSegment(text: string) returns (r: Result<seq<string>>)
    ensures r == ParseSegment(text)
  {
    var segment := Trim(text);
    var dash := IndexOf(segment, '-');
    if dash == |segment| { return Ok([segment]); }
    r := ParseOneRange(Trim(segment[..dash]), Trim(segment[dash + 1..]));
  }

  method ParseOneRange(startText: string, endText: string) returns (r: Result<seq<string>>)
    ensures r == RangeOf(NumberSuffix(startText), NumberSuffix(endText))
  {
    var start := ExtractNumberSuffix(startText);
    var end := ExtractNumberSuffix(endText);
    if start.Err? || end.Err? { return Err; }
    var (prefix, first) := start.value;
    var (endPrefix, last) := end.value;
    if (endPrefix != "" && prefix != endPrefix) || first > last { return Err; }
    var ids: seq<string> := [];
    for num := first to last + 1
      invariant ids == Ids(prefix, first, last)[..num - first]
    {
      ids := ids + [prefix + ToDecimal(num)];
    }
    assert ids == Ids(prefix, first, last);
    r := Ok(ids);
  }

  // ---- every id that comes out is a plain id, and stays as it is ----

  predicate Plain(id: string) { ',' !in id && '-' !in id && Trimmed(id) }

  predicate AllPlain(ids: seq<string>) { forall i :: 0 <= i < |ids| ==> Plain(ids[i]) }

  lemma {:induction false} TrimStartIsTail(s: string)
    ensures exists k :: 0 <= k <= |s| && TrimStart(s) == s[k..]
    ensures TrimStart(s) != [] ==> !IsSpace(TrimStart(s)[0])
  {
    if s != [] && IsSpace(s[0]) {
      TrimStartIsTail(s[1..]);
      var k :| 0 <= k <= |s[1..]| && TrimStart(s[1..]) == s[1..][k..];
      assert s[1..][k..] == s[k + 1..];
    } else {
      assert s[0..] == s;
    }
  }

  lemma {:induction false} TrimEndIsFront(s: string)
    ensures TrimEnd(s) <= s && (TrimEnd(s) != [] ==> !IsSpace(TrimEnd(s)[|TrimEnd(s)| - 1]))
  {
    if s != [] && IsSpace(s[|s| - 1]) {
      TrimEndIsFront(s[..|s| - 1]);
    }
  }

  lemma TrimTrims(s: string)
    ensures Trimmed(Trim(s)) && (Trimmed(s) ==> Trim(s) == s)
    ensures forall c :: c in Trim(s) ==> c in s
  {
    TrimStartIsTail(s);
    TrimEndIsFront(TrimStart(s));
  }

  lemma {:induction false} SplitHasNoCommas(s: string)
    ensures forall k :: 0 <= k < |SplitCommas(s)| ==> ',' !in SplitCommas(s)[k]
    ensures ',' !in s ==> SplitCommas(s) == [s]
    decreases |s|
  {
    var k := IndexOf(s, ',');
    if k < |s| {
      SplitHasNoCommas(s[k + 1..]);
    } else {
      assert s[..k] == s;
    }
  }

  lemma SuffixIdsPlain(text: string, n: nat)
    requires ',' !in text && '-' !in text && NumberSuffix(Trim(text)).Ok?
    ensures Plain(NumberSuffix(Trim(text)).value.0 + ToDecimal(n))
  {
    TrimTrims(text);
    var s := Trim(text);
    var prefix := s[..SuffixStart(s)];
    assert forall c :: c in prefix ==> c in s;
    assert forall c :: c in ToDecimal(n) ==> IsDigit(c);
  }

  lemma SegmentPlain(text: string)
    requires ',' !in text && ParseSegment(text).Ok?
    ensures AllPlain(ParseSegment(text).value)
  {
    TrimTrims(text);
    var segment := Trim(text);
    var dash := IndexOf(segment, '-');
    if dash < |segment| {
      var start := segment[..dash];
      assert forall c :: c in start ==> c in segment;
      forall n: nat ensures Plain(NumberSuffix(Trim(start)).value.0 + ToDecimal(n)) {
        SuffixIdsPlain(start, n);
      }
    } else {
      assert segment[..dash] == segment;
    }
  }

  lemma {:induction false} SegmentsPlain(segments: seq<string>)
    requires forall k :: 0 <= k < |segments| ==> ',' !in segments[k]
    requires ParseSegments(segments).Ok?
    ensures AllPlain(ParseSegments(segments).value)
  {
    if segments != [] {
      SegmentsPlain(segments[..|segments| - 1]);
      SegmentPlain(segments[|segments| - 1]);
    }
  }

  /** A plain id is left alone. */
  lemma PlainStays(id: string)
    requires Plain(id)
    ensures ParseId(id) == Ok([id])
  {
    SplitHasNoCommas(id);
    TrimTrims(id);
    OneSegment(id);
  }

  /** Space around an id does not count. */
  lemma BlanksDropped(before: string, id: string, after: string)
    requires Plain(id) && id != [] && Blank(before) && Blank(after)
    ensures ParseId(before + id + after) == Ok([id])
  {
    TrimBlanks(before, id, after);
    OneSegment(before + id + after);
    assert IndexOf(id, '-') == |id| && id[..|id|] == id;
  }

  /** Whatever an id is expanded to, every id of it is expanded to itself. */
  lemma ExpandedStays(portId: string, k: nat)
    requires ParseId(portId).Ok? && k < |ParseId(portId).value|
    ensures ParseId(ParseId(portId).value[k]) == Ok([ParseId(portId).value[k]])
  {
    SplitHasNoCommas(portId);
    SegmentsPlain(SplitCommas(portId));
    PlainStays(ParseId(portId).value[k]);
  }

  lemma OneSegment(text: string)
    requires ',' !in text
    ensures ParseId(text) == ParseSegment(text)
  {
    SplitHasNoCommas(text);
    GatheredOfOne(text, PARSE_SEGMENT);
  }

  predicate Blank(s: string) { forall c <- s :: IsSpace(c) }

  lemma {:induction false} TrimStartOf(sp: string, x: string)
    requires Blank(sp) && (x != [] ==> !IsSpace(x[0]))
    ensures TrimStart(sp + x) == x
  {
    if sp == [] {
      assert sp + x == x;
    } else {
      assert (sp + x)[1..] == sp[1..] + x;
      TrimStartOf(sp[1..], x);
    }
  }

  lemma {:induction false} TrimEndOf(x: string, sp: string)
    requires Blank(sp) && (x != [] ==> !IsSpace(x[|x| - 1]))
    ensures TrimEnd(x + sp) == x
  {
    if sp == [] {
      assert x + sp == x;
    } else {
      assert (x + sp)[..|x + sp| - 1] == x + sp[..|sp| - 1];
      TrimEndOf(x, sp[..|sp| - 1]);
    }
  }

  lemma TrimBlanks(before: string, x: string, after: string)
    requires Blank(before) && Blank(after) && Trimmed(x) && x != []
    ensures Trim(before + x + after) == x
  {
    assert before + x + after == before + (x + after);
    TrimStartOf(before, x + after);
    TrimEndOf(x, after);
  }

  /** The two ends of a range. */
  datatype RangeEnds = RangeEnds(prefix: string, first: nat, endPrefix: string, last: nat)
  {
    predicate Ok() {
      && ',' !in prefix && '-' !in prefix && (prefix != [] ==> !IsSpace(prefix[0]) && !IsDigit(prefix[|prefix| - 1]))
      && ',' !in endPrefix && (endPrefix != [] ==> !IsSpace(endPrefix[0]) && !IsDigit(endPrefix[|endPrefix| - 1]))
    }

    /** With space before, between and behind. */
    function Text(a: string, b: string, c: string, d: string): string {
      a + ((prefix + ToDecimal(first) + b) + "-" + (c + (endPrefix + ToDecimal(last)))) + d
    }
  }

  /** A range means its numbers in order, each behind the prefix, none twice; space around
      the ends does not count. It is refused exactly when a prefix is repeated that is not
      the same, when it runs downwards, or when a number has more than 32 bits. */
  lemma RangeExpands(e: RangeEnds, a: string, b: string, c: string, d: string)
    requires e.Ok() && Blank(a) && Blank(b) && Blank(c) && Blank(d)
    ensures var r := ParseId(e.Text(a, b, c, d));
      && (r.Ok? <==> (e.endPrefix == "" || e.endPrefix == e.prefix) && e.first <= e.last <= U32_MAX)
      && (r.Ok? ==>
        && |r.value| == e.last - e.first + 1
        && (forall i :: 0 <= i < |r.value| ==> r.value[i] == e.prefix + ToDecimal(e.first + i))
        && (forall i, j :: 0 <= i < j < |r.value| ==> r.value[i] != r.value[j]))
  {
    RangeMeans(e, a, b, c, d);
    if e.first <= e.last { IdsDistinct(e.prefix, e.first, e.last); }
  }

  lemma RangeMeans(e: RangeEnds, a: string, b: string, c: string, d: string)
    requires e.Ok() && Blank(a) && Blank(b) && Blank(c) && Blank(d)
    ensures ParseId(e.Text(a, b, c, d)) ==
      if (e.endPrefix == "" || e.endPrefix == e.prefix) && e.first <= e.last <= U32_MAX
      then Ok(Ids(e.prefix, e.first, e.last)) else Err
  {
    RangeIsParsed(e, a, b, c, d);
    NumberSuffixInverts(e.prefix, e.first);
    NumberSuffixInverts(e.endPrefix, e.last);
  }

  lemma NumberText(prefix: string, n: nat)
    requires ',' !in prefix && (prefix != [] ==> !IsSpace(prefix[0]))
    ensures var text := prefix + ToDecimal(n);
      Trimmed(text) && text != [] && ',' !in text && ('-' in text ==> '-' in prefix)
  {
    assert IsDigit(ToDecimal(n)[|ToDecimal(n)| - 1]);
    assert forall c :: c in ToDecimal(n) ==> IsDigit(c);
  }

  lemma RangeIsParsed(e: RangeEnds, a: string, b: string, c: string, d: string)
    requires e.Ok() && Blank(a) && Blank(b) && Blank(c) && Blank(d)
    ensures ParseId(e.Text(a, b, c, d)) ==
      RangeOf(NumberSuffix(e.prefix + ToDecimal(e.first)), NumberSuffix(e.endPrefix + ToDecimal(e.last)))
  {
    NumberText(e.prefix, e.first);
    NumberText(e.endPrefix, e.last);
    RangeOfTexts(e.prefix + ToDecimal(e.first), e.endPrefix + ToDecimal(e.last), a, b, c, d);
  }

  lemma RangeOfTexts(from: string, to: string, a: string, b: string, c: string, d: string)
    requires Trimmed(from) && from != [] && ',' !in from && '-' !in from
    requires Trimmed(to) && to != [] && ',' !in to
    requires Blank(a) && Blank(b) && Blank(c) && Blank(d)
    ensures ParseId(a + ((from + b) + "-" + (c + to)) + d) == RangeOf(NumberSuffix(from), NumberSuffix(to))
  {
    WithBlanks(from, b);
    WithBlanks(to, c);
    SegmentOfRange(from + b, c + to, a, d);
  }

  lemma WithBlanks(x: string, sp: string)
    requires Trimmed(x) && x != [] && ',' !in x && Blank(sp)
    ensures Trim(x + sp) == x && Trim(sp + x) == x
    ensures ',' !in x + sp && ',' !in sp + x && ('-' !in x ==> '-' !in x + sp)
    ensures (x + sp)[0] == x[0] && (sp + x)[|sp + x| - 1] == x[|x| - 1]
  {
    TrimBlanks([], x, sp);
    TrimBlanks(sp, x, []);
    assert [] + x + sp == x + sp && sp + x + [] == sp + x;
  }

  lemma TextWithoutBlanks(e: RangeEnds)
    ensures e.Text("", "", "", "") == e.prefix + ToDecimal(e.first) + "-" + (e.endPrefix + ToDecimal(e.last))
  {
    var from, to := e.prefix + ToDecimal(e.first), e.endPrefix + ToDecimal(e.last);
    assert from + "" == from && "" + to == to && "" + (from + "-" + to) + "" == from + "-" + to;
  }

  lemma SegmentOfRange(from: string, to: string, a: string, d: string)
    requires from != [] && !IsSpace(from[0]) && ',' !in from && '-' !in from
    requires to != [] && !IsSpace(to[|to| - 1]) && ',' !in to
    requires Blank(a) && Blank(d)
    ensures ParseId(a + (from + "-" + to) + d) == ParseRange(from, to)
  {
    TrimBlanks(a, from + "-" + to, d);
    OneSegment(a + (from + "-" + to) + d);
    FirstDash(from, to);
  }

  lemma IdsDistinct(prefix: string, first: nat, last: nat)
    requires first <= last
    ensures forall i, j :: 0 <= i < j <= last - first ==> Ids(prefix, first, last)[i] != Ids(prefix, first, last)[j]
  {
    forall i, j | 0 <= i < j <= last - first ensures Ids(prefix, first, last)[i] != Ids(prefix, first, last)[j] {
      IdsDiffer(prefix, first + i, first + j);
    }
  }

  lemma IdShape(prefix: string, n: nat)
    requires ',' !in prefix && '-' !in prefix && (prefix != [] ==> !IsSpace(prefix[0]))
    ensures Plain(prefix + ToDecimal(n)) && prefix + ToDecimal(n) != []
  {
    assert forall c :: c in ToDecimal(n) ==> IsDigit(c);
  }

  lemma FirstDash(from: string, to: string)
    requires '-' !in from
    ensures IndexOf(from + "-" + to, '-') == |from|
    ensures (from + "-" + to)[..|from|] == from && (from + "-" + to)[|from| + 1..] == to
  {
    IndexIs(from + "-" + to, '-', |from|);
  }

  lemma {:induction false} IndexIs(s: string, c: char, k: nat)
    requires k < |s| && s[k] == c && forall i :: 0 <= i < k ==> s[i] != c
    ensures IndexOf(s, c) == k
  {
    if k > 0 { IndexIs(s[1..], c, k - 1); }
  }

  // ---- lists ----

  lemma SplitAtComma(s: string, k: nat)
    requires k < |s| && s[k] == ',' && ',' !in s[..k]
    ensures SplitCommas(s) == [s[..k]] + SplitCommas(s[k + 1..])
  {
    assert forall i :: 0 <= i < k ==> s[i] == s[..k][i];
    IndexIs(s, ',', k);
  }

  lemma {:induction false} SplitOfJoined(a: string, b: string)
    ensures SplitCommas(a + "," + b) == SplitCommas(a) + SplitCommas(b)
    decreases |a|
  {
    var k, s := IndexOf(a, ','), a + "," + b;
    assert s[..k] == a[..k];
    SplitAtComma(s, k);
    if k == |a| {
      assert a[..k] == a && s[k + 1..] == b;
    } else {
      var rest := a[k + 1..];
      assert s[k + 1..] == rest + "," + b;
      SplitOfJoined(rest, b);
      assert ([a[..k]] + SplitCommas(rest)) + SplitCommas(b) == [a[..k]] + (SplitCommas(rest) + SplitCommas(b));
    }
  }

  /** A comma list means what its parts mean, one after the other, and fails where one fails. */
  lemma CommasConcatenate(a: string, b: string)
    ensures ParseId(a + "," + b) == Joined(ParseId(a), ParseId(b))
  {
    SplitOfJoined(a, b);
    GatheredOfConcat(SplitCommas(a), SplitCommas(b), PARSE_SEGMENT);
  }

  lemma IdsDiffer(prefix: string, m: nat, n: nat)
    requires m != n
    ensures prefix + ToDecimal(m) != prefix + ToDecimal(n)
  {
    DecimalRoundTrip(m);
    DecimalRoundTrip(n);
    assert (prefix + ToDecimal(m))[|prefix|..] == ToDecimal(m) && (prefix + ToDecimal(n))[|prefix|..] == ToDecimal(n);
  }

  // ---- expanding a switch ----

  /** The ids that an id text names. */
  function NamedIds(id: string): seq<string> {
    match ParseId(id)
    case Ok(ids) => ids
    case Err => []
  }

  function NamedByAll(ids: seq<string>): (r: seq<seq<string>>)
    ensures |r| == |ids|
  {
    seq(|ids|, i requires 0 <= i < |ids| => NamedIds(ids[i]))
  }

  function Flatten(ss: seq<seq<string>>): seq<string> {
    if ss == [] then [] else Flatten(ss[..|ss| - 1]) + ss[|ss| - 1]
  }

  function Copies(p: Port, ids: seq<string>): seq<Port> {
    seq(|ids|, i requires 0 <= i < |ids| => p.(portId := ids[i]))
  }

  function CopiesOf(p: Port): Result<seq<Port>> {
    match ParseId(p.portId)
    case Ok(ids) => Ok(Copies(p, ids))
    case Err => Err
  }

  const COPIES_OF := (p: Port) => CopiesOf(p)

  function ExpandPorts(ports: seq<Port>): Result<seq<Port>> { Gathered(ports, COPIES_OF) }

  const PARSE_ID := (id: string) => ParseId(id)

  function ExpandIds(ids: seq<string>): Result<seq<string>> { Gathered(ids, PARSE_ID) }

  lemma {:induction false} ParseIdNonEmpty(segments: seq<string>)
    requires ParseSegments(segments).Ok?
    ensures |ParseSegments(segments).value| >= |segments|
  {
    if segments != [] { ParseIdNonEmpty(segments[..|segments| - 1]); }
  }

  function ExpandMirror(m: PortMirror): Result<PortMirror> {
    match (ExpandIds(m.sourcePorts), ParseId(m.destinationPort))
    case (Ok(sources), Ok(dest)) =>
      ParseIdNonEmpty(SplitCommas(m.destinationPort));
      if |dest| > 1 then Err else Ok(m.(sourcePorts := sources, destinationPort := dest[0]))
    case _ => Err
  }

  predicate MirrorsExpand(mirrors: seq<PortMirror>) {
    forall i :: 0 <= i < |mirrors| ==> ExpandMirror(mirrors[i]).Ok?
  }

  function ExpandMirrors(mirrors: seq<PortMirror>): (r: seq<PortMirror>)
    requires MirrorsExpand(mirrors)
    ensures |r| == |mirrors|
  {
    seq(|mirrors|, i requires 0 <= i < |mirrors| => ExpandMirror(mirrors[i]).value)
  }

  function Expand(sw: SwitchConfig): Result<SwitchConfig> {
    if ExpandPorts(sw.ports).Err? || !MirrorsExpand(sw.portMirrors) then Err
    else Ok(sw.(ports := ExpandPorts(sw.ports).value, portMirrors := ExpandMirrors(sw.portMirrors)))
  }

  /** `expand_port_ranges`. */
  method ExpandPortRanges(sw: SwitchConfig) returns (r: Result<SwitchConfig>)
    ensures r == Expand(sw)
  {
    var ports := ExpandPortList(sw.ports);
    if ports.Err? { return Err; }
    var mirrors := ExpandMirrorList(sw.portMirrors);
    if mirrors.Err? { return Err; }
    r := Ok(sw.(ports := ports.value, portMirrors := mirrors.value));
  }

  method ExpandPortList(ports: seq<Port>) returns (r: Result<seq<Port>>)
    ensures r == ExpandPorts(ports)
  {
    var expanded: seq<Port> := [];
    for k := 0 to |ports|
      invariant ExpandPorts(ports[..k]) == Ok(expanded)
    {
      var ids := ParsePortId(ports[k].portId);
      if ids.Err? { GatheredFails(ports, COPIES_OF, k); return Err; }
      GatheredOneMore(ports, COPIES_OF, k);
      var copies := CopyPort(ports[k], ids.value);
      expanded := expanded + copies;
    }
    assert ports[..|ports|] == ports;
    r := Ok(expanded);
  }

  method CopyPort(p: Port, ids: seq<string>) returns (copies: seq<Port>)
    ensures copies == Copies(p, ids)
  {
    copies := [];
    for m := 0 to |ids|
      invariant copies == Copies(p, ids)[..m]
    {
      copies := copies + [p.(portId := ids[m])];
    }
  }

  /** `expanded` is what the first of the sessions expand to. */
  ghost predicate ExpandedSoFar(mirrors: seq<PortMirror>, expanded: seq<PortMirror>) {
    |expanded| <= |mirrors| && forall i :: 0 <= i < |expanded| ==> ExpandMirror(mirrors[i]) == Ok(expanded[i])
  }

  lemma ExpandedOneMore(mirrors: seq<PortMirror>, expanded: seq<PortMirror>, m: PortMirror)
    requires ExpandedSoFar(mirrors, expanded) && |expanded| < |mirrors|
    requires ExpandMirror(mirrors[|expanded|]) == Ok(m)
    ensures ExpandedSoFar(mirrors, expanded + [m])
  {
  }

  lemma ExpandedAll(mirrors: seq<PortMirror>, expanded: seq<PortMirror>)
    requires ExpandedSoFar(mirrors, expanded) && |expanded| == |mirrors|
    ensures MirrorsExpand(mirrors) && ExpandMirrors(mirrors) == expanded
  {
  }

  method ExpandMirrorList(mirrors: seq<PortMirror>) returns (r: Result<seq<PortMirror>>)
    ensures r == if MirrorsExpand(mirrors) then Ok(ExpandMirrors(mirrors)) else Err
  {
    var expanded: seq<PortMirror> := [];
    for k := 0 to |mirrors|
      invariant |expanded| == k && ExpandedSoFar(mirrors, expanded)
    {
      var m := ExpandOneMirror(mirrors[k]);
      if m.Err? { return Err; }
      ExpandedOneMore(mirrors, expanded, m.value);
      expanded := expanded + [m.value];
    }
    ExpandedAll(mirrors, expanded);
    r := Ok(expanded);
  }

  method ExpandOneMirror(m: PortMirror) returns (r: Result<PortMirror>)
    ensures r == ExpandMirror(m)
  {
    var sources: seq<string> := [];
    for n := 0 to |m.sourcePorts|
      invariant ExpandIds(m.sourcePorts[..n]) == Ok(sources)
    {
      var ids := ParsePortId(m.sourcePorts[n]);
      if ids.Err? { GatheredFails(m.sourcePorts, PARSE_ID, n); return Err; }
      GatheredOneMore(m.sourcePorts, PARSE_ID, n);
      sources := sources + ids.value;
    }
    assert m.sourcePorts[..|m.sourcePorts|] == m.sourcePorts;
    var dest := ParsePortId(m.destinationPort);
    if dest.Err? { return Err; }
    ParseIdNonEmpty(SplitCommas(m.destinationPort));
    if |dest.value| > 1 { return Err; }
    r := Ok(m.(sourcePorts := sources, destinationPort := dest.value[0]));
  }

  // ---- what expansion does ----

  /** The ids that each row of ports names. */
  function Names(ports: seq<Port>): (r: seq<seq<string>>)
    ensures |r| == |ports|
  {
    seq(|ports|, i requires 0 <= i < |ports| => NamedIds(ports[i].portId))
  }

  lemma ExpandLast(ports: seq<Port>) returns (front: seq<Port>, copies: seq<Port>)
    requires ExpandPorts(ports).Ok? && ports != []
    ensures ExpandPorts(ports[..|ports| - 1]) == Ok(front) && CopiesOf(ports[|ports| - 1]) == Ok(copies)
    ensures ExpandPorts(ports).value == front + copies
  {
    front, copies := ExpandPorts(ports[..|ports| - 1]).value, CopiesOf(ports[|ports| - 1]).value;
  }

  predicate PortIdsParse(ports: seq<Port>) { forall p <- ports :: ParseId(p.portId).Ok? }

  /** `r` is a copy of some row that names it. */
  ghost predicate IsCopy(ports: seq<Port>, r: Port) {
    exists p :: p in ports && r.portId in NamedIds(p.portId) && r == p.(portId := r.portId)
  }

  /** The ids come out in the order in which they are named. */
  lemma {:induction false} ExpandedAreNamed(ports: seq<Port>)
    requires ExpandPorts(ports).Ok?
    ensures |ExpandPorts(ports).value| == |Flatten(Names(ports))|
    ensures forall i :: 0 <= i < |Flatten(Names(ports))| ==>
      ExpandPorts(ports).value[i].portId == Flatten(Names(ports))[i]
  {
    if ports != [] {
      ExpandedAreNamed(ports[..|ports| - 1]);
      var front, copies := ExpandLast(ports);
      assert Names(ports)[..|ports| - 1] == Names(ports[..|ports| - 1]);
    }
  }

  lemma CopiesAre(p: Port, copies: seq<Port>)
    requires CopiesOf(p) == Ok(copies)
    ensures forall r :: r in copies <==> r.portId in NamedIds(p.portId) && r == p.(portId := r.portId)
  {
    var ids := NamedIds(p.portId);
    forall r ensures r in copies <==> r.portId in ids && r == p.(portId := r.portId) {
      if r.portId in ids && r == p.(portId := r.portId) {
        var j :| 0 <= j < |ids| && ids[j] == r.portId;
        assert copies[j] == r;
      }
    }
  }

  /** Expansion succeeds when each id text is understood, and each port comes as a copy of a row. */
  lemma ExpandedAreCopies(ports: seq<Port>)
    ensures ExpandPorts(ports).Ok? <==> PortIdsParse(ports)
    ensures ExpandPorts(ports).Ok? ==> forall r :: r in ExpandPorts(ports).value <==> IsCopy(ports, r)
  {
    GatheredHas(ports, COPIES_OF);
    forall p: Port | ParseId(p.portId).Ok?
      ensures forall r :: r in COPIES_OF(p).value <==> r.portId in NamedIds(p.portId) && r == p.(portId := r.portId)
    {
      CopiesAre(p, CopiesOf(p).value);
    }
  }

  lemma NamedBySnoc(front: seq<string>, last: string)
    ensures Flatten(NamedByAll(front + [last])) == Flatten(NamedByAll(front)) + NamedIds(last)
  {
    var named := NamedByAll(front + [last]);
    assert named[..|front|] == NamedByAll(front) && named[|front|] == NamedIds(last);
  }

  lemma {:induction false} ExpandIdsNamed(ids: seq<string>)
    ensures ExpandIds(ids).Ok? <==> forall id :: id in ids ==> ParseId(id).Ok?
    ensures ExpandIds(ids).Ok? ==> ExpandIds(ids).value == Flatten(NamedByAll(ids))
  {
    if ids == [] {
      assert NamedByAll(ids) == [];
    } else {
      var front, last := ids[..|ids| - 1], ids[|ids| - 1];
      assert ids == front + [last];
      ExpandIdsNamed(front);
      GatheredOfSnoc(front, last, PARSE_ID);
      NamedBySnoc(front, last);
    }
  }

  predicate MirrorParses(m: PortMirror) {
    && (forall id <- m.sourcePorts :: ParseId(id).Ok?)
    && ParseId(m.destinationPort).Ok? && |ParseId(m.destinationPort).value| == 1
  }

  /** A session with its sources named one by one, and its one destination. */
  ghost predicate MirrorExpanded(m: PortMirror, r: PortMirror) {
    && r.sessionId == m.sessionId && r.direction == m.direction
    && r.sourcePorts == Flatten(NamedByAll(m.sourcePorts)) && ParseId(m.destinationPort) == Ok([r.destinationPort])
  }

  lemma ExpandMirrorExactly(m: PortMirror)
    ensures ExpandMirror(m).Ok? <==> MirrorParses(m)
    ensures forall r :: ExpandMirror(m) == Ok(r) ==> MirrorExpanded(m, r)
  {
    ExpandIdsNamed(m.sourcePorts);
    if ParseId(m.destinationPort).Ok? {
      ParseIdNonEmpty(SplitCommas(m.destinationPort));
      var ids := ParseId(m.destinationPort).value;
      assert |ids| == 1 ==> ids == [ids[0]];
    }
  }

  /** Expansion succeeds exactly when every id text is understood and every destination is
      one port; then it names the ports and mirror sources one by one, and changes nothing else. */
  lemma ExpandExactly(sw: SwitchConfig)
    ensures Expand(sw).Ok? <==> PortIdsParse(sw.ports) && forall m :: m in sw.portMirrors ==> MirrorParses(m)
    ensures Expand(sw).Ok? ==>
      var r := Expand(sw).value;
      && r == sw.(ports := r.ports, portMirrors := r.portMirrors)
      && |r.ports| == |Flatten(Names(sw.ports))|
      && (forall i :: 0 <= i < |r.ports| ==> r.ports[i].portId == Flatten(Names(sw.ports))[i])
      && (forall p :: p in r.ports <==> IsCopy(sw.ports, p))
      && |r.portMirrors| == |sw.portMirrors|
      && (forall i :: 0 <= i < |r.portMirrors| ==> MirrorExpanded(sw.portMirrors[i], r.portMirrors[i]))
  {
    ExpandedAreCopies(sw.ports);
    forall m { ExpandMirrorExactly(m); }
    assert (forall m :: m in sw.portMirrors ==> MirrorParses(m)) <==> MirrorsExpand(sw.portMirrors);
    if Expand(sw).Ok? {
      ExpandedAreNamed(sw.ports);
      forall i | 0 <= i < |sw.portMirrors|
        ensures MirrorExpanded(sw.portMirrors[i], ExpandMirrors(sw.portMirrors)[i])
      {
        assert ExpandMirror(sw.portMirrors[i]).Ok?;
      }
    }
  }

  // ---- expansion settles ----

  /** Every id in the switch is a plain one. */
  predicate Expanded(sw: SwitchConfig) {
    && (forall i :: 0 <= i < |sw.ports| ==> Plain(sw.ports[i].portId))
    && (forall i :: 0 <= i < |sw.portMirrors| ==>
          AllPlain(sw.portMirrors[i].sourcePorts) && Plain(sw.portMirrors[i].destinationPort))
  }

  lemma {:induction false} ExpandPortsPlain(ports: seq<Port>)
    requires ExpandPorts(ports).Ok?
    ensures forall i :: 0 <= i < |ExpandPorts(ports).value| ==> Plain(ExpandPorts(ports).value[i].portId)
  {
    if ports != [] {
      ExpandPortsPlain(ports[..|ports| - 1]);
      IdPlain(ports[|ports| - 1].portId);
    }
  }

  lemma IdPlain(id: string)
    requires ParseId(id).Ok?
    ensures AllPlain(ParseId(id).value)
  {
    SplitHasNoCommas(id);
    SegmentsPlain(SplitCommas(id));
  }

  lemma {:induction false} ExpandIdsPlain(ids: seq<string>)
    requires ExpandIds(ids).Ok?
    ensures AllPlain(ExpandIds(ids).value)
  {
    if ids != [] {
      ExpandIdsPlain(ids[..|ids| - 1]);
      IdPlain(ids[|ids| - 1]);
    }
  }

  lemma ExpandMakesExpanded(sw: SwitchConfig)
    requires Expand(sw).Ok?
    ensures Expanded(Expand(sw).value)
  {
    ExpandPortsPlain(sw.ports);
    forall i | 0 <= i < |sw.portMirrors|
      ensures AllPlain(ExpandMirrors(sw.portMirrors)[i].sourcePorts) &&
        Plain(ExpandMirrors(sw.portMirrors)[i].destinationPort)
    {
      assert ExpandMirror(sw.portMirrors[i]).Ok?;
      ExpandIdsPlain(sw.portMirrors[i].sourcePorts);
      IdPlain(sw.portMirrors[i].destinationPort);
      ParseIdNonEmpty(SplitCommas(sw.portMirrors[i].destinationPort));
    }
  }

  lemma {:induction false} PlainPortsStay(ports: seq<Port>)
    requires forall i :: 0 <= i < |ports| ==> Plain(ports[i].portId)
    ensures ExpandPorts(ports) == Ok(ports)
  {
    if ports != [] {
      var last := ports[|ports| - 1];
      PlainPortsStay(ports[..|ports| - 1]);
      PlainStays(last.portId);
      assert Copies(last, [last.portId]) == [last];
      assert ports == ports[..|ports| - 1] + [last];
    }
  }

  lemma {:induction false} PlainIdsStay(ids: seq<string>)
    requires AllPlain(ids)
    ensures ExpandIds(ids) == Ok(ids)
  {
    if ids != [] {
      var front, last := ids[..|ids| - 1], ids[|ids| - 1];
      assert ids == front + [last];
      PlainIdsStay(front);
      PlainStays(last);
      GatheredOfSnoc(front, last, PARSE_ID);
    }
  }

  /** A switch with plain ids only is left alone, so expanding twice is expanding once. */
  lemma ExpandedStaysPut(sw: SwitchConfig)
    requires Expanded(sw)
    ensures Expand(sw) == Ok(sw)
  {
    PlainPortsStay(sw.ports);
    forall i | 0 <= i < |sw.portMirrors| ensures ExpandMirror(sw.portMirrors[i]) == Ok(sw.portMirrors[i]) {
      PlainIdsStay(sw.portMirrors[i].sourcePorts);
      PlainStays(sw.portMirrors[i].destinationPort);
    }
    assert ExpandMirrors(sw.portMirrors) == sw.portMirrors;
  }

  lemma ExpandIdempotent(sw: SwitchConfig)
    requires Expand(sw).Ok?
    ensures Expand(Expand(sw).value) == Expand(sw)
  {
    ExpandMakesExpanded(sw);
    ExpandedStaysPut(Expand(sw).value);
  }
}
