/** Masking secrets in command text (switch-configurator/src/redact.rs): the automaton
    that follows FortiOS configuration blocks. */
module Redact {
  import opened Basics
  import opened PortRange
  import opened Validation

  const MASK := "<redacted>"

  // ---- kinds of lines ----

  predicate StartsWith(s: string, prefix: string) { prefix <= s }

  /** `config system snmp community`, which is also a `config` line. */
  predicate OpensCommunity(line: string) { LowerCase(Trim(line)) == "config system snmp community" }

  predicate Opens(line: string) { StartsWith(LowerCase(Trim(line)), "config ") }

  predicate Ends(line: string) { LowerCase(Trim(line)) == "end" }

  predicate Shows(line: string) { StartsWith(LowerCase(Trim(line)), "show ") }

  function SkipSpaces(s: string, i: nat): (j: nat)
    requires i <= |s|
    ensures i <= j <= |s| && forall k :: i <= k < j ==> IsSpace(s[k])
    ensures j < |s| ==> !IsSpace(s[j])
    decreases |s| - i
  {
    if i < |s| && IsSpace(s[i]) then SkipSpaces(s, i + 1) else i
  }

  predicate WordAt(s: string, i: nat, word: string) {
    i + |word| <= |s| && LowerCase(s[i..i + |word|]) == word
  }

  /** Where the value of a `set name` line starts. */
  function NameAt(s: string): (r: Option<nat>)
    ensures r.Some? ==> r.value <= |s|
  {
    var a := SkipSpaces(s, 0);
    if !WordAt(s, a, "set") then None
    else
      var c := SkipSpaces(s, a + 3);
      if c == a + 3 || !WordAt(s, c, "name") then None
      else
        var e := SkipSpaces(s, c + 4);
        if e == c + 4 || '\n' in s[e..] then None else Some(e)
  }

  // ---- one line ----

  /** The open blocks counted from the community block, after a line. */
  function DepthAfter(depth: nat, line: string): nat {
    if depth == 0 then if OpensCommunity(line) then 1 else 0
    else if Opens(line) then depth + 1
    else if Ends(line) then depth - 1
    else depth
  }

  predicate MaskedByBlock(depth: nat, line: string) {
    depth == 1 && !Opens(line) && !Ends(line) && NameAt(line).Some?
  }

  /** What is shown of a line; `others` is what the stateless patterns make of it. */
  function Shown(depth: nat, line: string, others: string -> string): string {
    if MaskedByBlock(depth, line) then line[..NameAt(line).value] + MASK else others(line)
  }

  function DepthAfterAll(depth: nat, lines: seq<string>): nat {
    if lines == [] then depth else DepthAfter(DepthAfterAll(depth, lines[..|lines| - 1]), lines[|lines| - 1])
  }

  function ShownAll(depth: nat, lines: seq<string>, others: string -> string): (r: seq<string>)
    ensures |r| == |lines|
  {
    if lines == [] then []
    else
      var front := lines[..|lines| - 1];
      ShownAll(depth, front, others) + [Shown(DepthAfterAll(depth, front), lines[|lines| - 1], others)]
  }

  // ---- text in pieces ----

  /** `split_inclusive('\n')`. */
  function Pieces(text: string): seq<string>
    decreases |text|
  {
    if text == [] then []
    else
      var k := IndexOf(text, '\n');
      if k == |text| then [text] else [text[..k + 1]] + Pieces(text[k + 1..])
  }

  /** The pieces, redacted as lines from a state on, with their line ends. */
  function ShownPieces(depth: nat, pieces: seq<string>, others: string -> string): string
    decreases |pieces|
  {
    if pieces == [] then ""
    else
      var line := TrimLineEnds(pieces[0]);
      Shown(depth, line, others) + pieces[0][|line|..] + ShownPieces(DepthAfter(depth, line), pieces[1..], others)
  }

  lemma NextPiece(depth: nat, pieces: seq<string>, i: nat, others: string -> string)
    requires i < |pieces|
    ensures var line := TrimLineEnds(pieces[i]);
      ShownPieces(depth, pieces[i..], others) ==
        Shown(depth, line, others) + pieces[i][|line|..] + ShownPieces(DepthAfter(depth, line), pieces[i + 1..], others)
  {
    assert pieces[i..][1..] == pieces[i + 1..];
  }

  class CommandRedactor {
    const others: string -> string
    var depth: nat
    var showOutput: bool

    constructor (others: string -> string)
      ensures this.others == others && depth == 0 && !showOutput
    {
      this.others, depth, showOutput := others, 0, false;
    }

    method Redact(command: string) returns (shown: string)
      modifies this
      ensures depth == DepthAfter(old(depth), command) && showOutput == Shows(command)
      ensures shown == Shown(old(depth), command, others)
    {
      showOutput := Shows(command);
      if depth == 0 {
        if OpensCommunity(command) { depth := 1; }
      } else if Opens(command) {
        depth := depth + 1;
      } else if Ends(command) {
        depth := depth - 1;
      } else if depth == 1 && NameAt(command).Some? {
        return command[..NameAt(command).value] + MASK;
      }
      shown := others(command);
    }

    /** Works on a copy: the redactor itself stays as it is. */
    method PeekSent(text: string) returns (r: string)
      ensures r == ShownPieces(depth, Pieces(text), others)
    {
      var scratch := new CommandRedactor(others);
      scratch.depth, scratch.showOutput := depth, showOutput;
      var pieces := Pieces(text);
      r := "";
      for i := 0 to |pieces|
        invariant fresh(scratch) && scratch.others == others
        invariant ShownPieces(depth, pieces, others) == r + ShownPieces(scratch.depth, pieces[i..], others)
      {
        var line := TrimLineEnds(pieces[i]);
        NextPiece(scratch.depth, pieces, i, others);
        var shown := scratch.Redact(line);
        r := r + (shown + pieces[i][|line|..]);
      }
    }

    method PeekText(text: string) returns (r: string)
      ensures r == if showOutput then "<" + ToDecimal(Utf8Length(text)) + " bytes of show output withheld>"
                   else if depth > 0 then
                     "<" + ToDecimal(Utf8Length(text)) + " bytes withheld inside an SNMP community block>"
                   else ShownPieces(0, Pieces(text), others)
    {
      if showOutput { return "<" + ToDecimal(Utf8Length(text)) + " bytes of show output withheld>"; }
      if depth > 0 { return "<" + ToDecimal(Utf8Length(text)) + " bytes withheld inside an SNMP community block>"; }
      r := PeekSent(text);
    }
  }

  /** `redact_commands`. */
  method RedactCommands(commands: seq<string>, others: string -> string) returns (r: seq<string>)
    ensures r == ShownAll(0, commands, others)
  {
    var redactor := new CommandRedactor(others);
    r := [];
    for i := 0 to |commands|
      invariant fresh(redactor) && redactor.others == others
      invariant redactor.depth == DepthAfterAll(0, commands[..i]) && r == ShownAll(0, commands[..i], others)
    {
      assert commands[..i + 1][..i] == commands[..i];
      var shown := redactor.Redact(commands[i]);
      r := r + [shown];
    }
    assert commands[..|commands|] == commands;
  }

  // ---- what the depth means ----

  /** All blocks open after some lines, the outermost first; true for a community block. */
  function OpenBlocks(lines: seq<string>): seq<bool> {
    if lines == [] then []
    else
      var before, last := OpenBlocks(lines[..|lines| - 1]), lines[|lines| - 1];
      if Opens(last) then before + [OpensCommunity(last)]
      else if Ends(last) && before != [] then before[..|before| - 1]
      else before
  }

  /** The position of the outermost community block, or the length. */
  function OutermostCommunity(blocks: seq<bool>): (k: nat)
    ensures k <= |blocks| && forall i :: 0 <= i < k ==> !blocks[i]
    ensures k < |blocks| ==> blocks[k]
  {
    if blocks == [] || blocks[0] then 0 else OutermostCommunity(blocks[1..]) + 1
  }

  lemma OutermostIs(blocks: seq<bool>, k: nat)
    requires k <= |blocks| && (forall i :: 0 <= i < k ==> !blocks[i]) && (k < |blocks| ==> blocks[k])
    ensures OutermostCommunity(blocks) == k
  {
  }

  lemma CommunityIsConfig(line: string)
    ensures OpensCommunity(line) ==> Opens(line)
    ensures Ends(line) ==> !Opens(line)
  {
    if OpensCommunity(line) { assert "config system snmp community"[..7] == "config "; }
  }

  /** For any stream of lines, the depth is the number of open blocks from the outermost
      community block on, itself included. */
  lemma {:induction false} DepthCountsBlocks(lines: seq<string>)
    ensures DepthAfterAll(0, lines) == |OpenBlocks(lines)| - OutermostCommunity(OpenBlocks(lines))
  {
    if lines != [] {
      var front, last := lines[..|lines| - 1], lines[|lines| - 1];
      DepthCountsBlocks(front);
      CommunityIsConfig(last);
      var before, k := OpenBlocks(front), OutermostCommunity(OpenBlocks(front));
      if Opens(last) {
        OutermostIs(before + [OpensCommunity(last)], if k == |before| && !OpensCommunity(last) then k + 1 else k);
      } else if Ends(last) && before != [] {
        OutermostIs(before[..|before| - 1], if k == |before| then k - 1 else k);
      }
    }
  }

  /** Directly inside a community block that is in no other community block. */
  predicate DirectlyInsideCommunity(blocks: seq<bool>) {
    blocks != [] && blocks[|blocks| - 1] && forall i :: 0 <= i < |blocks| - 1 ==> !blocks[i]
  }

  lemma SetNameOpensNothing(line: string)
    requires NameAt(line).Some?
    ensures !Opens(line) && !Ends(line)
  {
    var a := SkipSpaces(line, 0);
    TrimStartSkips(line, 0);
    var t := TrimStart(line);
    assert line[0..] == line;
    TrimEndKeepsFirst(t);
    var lower := LowerCase(Trim(line));
    assert LowerCase(line[a..a + 3])[0] == 's';
    assert lower[0] == 's';
  }

  lemma {:induction false} TrimStartSkips(s: string, i: nat)
    requires i <= |s|
    ensures TrimStart(s[i..]) == s[SkipSpaces(s, i)..]
    decreases |s| - i
  {
    if i < |s| && IsSpace(s[i]) {
      assert s[i..][1..] == s[i + 1..];
      TrimStartSkips(s, i + 1);
    }
  }

  lemma {:induction false} TrimEndKeepsFirst(s: string)
    requires s != [] && !IsSpace(s[0])
    ensures TrimEnd(s) != [] && TrimEnd(s)[0] == s[0]
  {
    if IsSpace(s[|s| - 1]) { TrimEndKeepsFirst(s[..|s| - 1]); }
  }

  /** A `set name` line is masked by the block rule exactly when it stands directly inside
      an outermost community block. */
  lemma MaskedExactlyInside(lines: seq<string>, line: string)
    requires NameAt(line).Some?
    ensures MaskedByBlock(DepthAfterAll(0, lines), line) <==> DirectlyInsideCommunity(OpenBlocks(lines))
  {
    DepthCountsBlocks(lines);
    SetNameOpensNothing(line);
    var blocks := OpenBlocks(lines);
    if DirectlyInsideCommunity(blocks) { OutermostIs(blocks, |blocks| - 1); }
  }

  // ---- a block closes with its own end ----

  /** Opened minus ended. */
  function Excess(lines: seq<string>): int {
    if lines == [] then 0
    else
      var last := lines[|lines| - 1];
      Excess(lines[..|lines| - 1]) + if Opens(last) then 1 else if Ends(last) then -1 else 0
  }

  /** No prefix ends more than it opened. */
  predicate NeverNegative(lines: seq<string>) {
    forall k :: 0 <= k <= |lines| ==> Excess(lines[..k]) >= 0
  }

  predicate Balanced(lines: seq<string>) { NeverNegative(lines) && Excess(lines) == 0 }

  lemma {:induction false} DepthFollowsExcess(depth: nat, lines: seq<string>)
    requires depth >= 1 && NeverNegative(lines)
    ensures DepthAfterAll(depth, lines) == depth + Excess(lines) >= depth
  {
    assert lines[..|lines|] == lines;
    if lines != [] {
      var front := lines[..|lines| - 1];
      forall k | 0 <= k <= |front| ensures Excess(front[..k]) >= 0 { assert front[..k] == lines[..k]; }
      DepthFollowsExcess(depth, front);
      CommunityIsConfig(lines[|lines| - 1]);
    }
  }

  lemma {:induction false} DepthOfConcat(depth: nat, a: seq<string>, b: seq<string>)
    ensures DepthAfterAll(depth, a + b) == DepthAfterAll(DepthAfterAll(depth, a), b)
  {
    if b == [] {
      assert a + b == a;
    } else {
      assert (a + b)[..|a + b| - 1] == a + b[..|b| - 1];
      DepthOfConcat(depth, a, b[..|b| - 1]);
    }
  }

  /** From outside, a community block leads back outside with its matching `end`, whatever
      balanced lines stand in it; until then the state is inside. */
  lemma CommunityBlockCloses(open: string, body: seq<string>, end: string, k: nat)
    requires OpensCommunity(open) && Balanced(body) && Ends(end) && k <= |body|
    ensures DepthAfterAll(0, [open] + body + [end]) == 0
    ensures DepthAfterAll(0, [open] + body[..k]) >= 1
  {
    assert DepthAfterAll(0, [open]) == DepthAfter(0, open) by { assert [open][..0] == []; }
    DepthOfConcat(0, [open], body);
    DepthOfConcat(0, [open], body[..k]);
    forall j | 0 <= j <= k ensures Excess(body[..k][..j]) >= 0 { assert body[..k][..j] == body[..j]; }
    DepthFollowsExcess(1, body);
    DepthFollowsExcess(1, body[..k]);
    CommunityIsConfig(end);
    assert ([open] + body + [end])[..1 + |body|] == [open] + body;
  }

  // ---- peeking predicts ----

  predicate IsLine(s: string) { '\n' !in s && (s != [] ==> s[|s| - 1] != '\r') }

  /** Lines as they are sent, one after the other. */
  function Sent(lines: seq<string>): string {
    if lines == [] then "" else lines[0] + "\n" + Sent(lines[1..])
  }

  lemma PiecesOfSent(line: string, rest: string)
    requires '\n' !in line
    ensures Pieces(line + "\n" + rest) == [line + "\n"] + Pieces(rest)
  {
    var text := line + "\n" + rest;
    IndexIs(text, '\n', |line|);
    assert text[..|line| + 1] == line + "\n" && text[|line| + 1..] == rest;
  }

  lemma LineOfPiece(line: string)
    requires IsLine(line)
    ensures TrimLineEnds(line + "\n") == line && (line + "\n")[|line|..] == "\n"
  {
    assert (line + "\n")[..|line|] == line;
  }

  lemma {:induction false} ShownAllFirst(depth: nat, line: string, rest: seq<string>, others: string -> string)
    ensures ShownAll(depth, [line] + rest, others) ==
      [Shown(depth, line, others)] + ShownAll(DepthAfter(depth, line), rest, others)
  {
    var lines := [line] + rest;
    if rest == [] {
      assert lines[..0] == [];
    } else {
      var front := rest[..|rest| - 1];
      assert lines[..|lines| - 1] == [line] + front;
      ShownAllFirst(depth, line, front, others);
      assert DepthAfterAll(depth, [line]) == DepthAfter(depth, line) by { assert [line][..0] == []; }
      DepthOfConcat(depth, [line], front);
    }
  }

  lemma ShownPiecesFirst(depth: nat, line: string, rest: seq<string>, others: string -> string)
    requires IsLine(line)
    ensures ShownPieces(depth, [line + "\n"] + rest, others)
      == Shown(depth, line, others) + "\n" + ShownPieces(DepthAfter(depth, line), rest, others)
  {
    LineOfPiece(line);
    assert ([line + "\n"] + rest)[1..] == rest;
  }

  /** What peeking at text about to be sent shows is what redacting its lines one after the
      other will show. */
  lemma {:induction false} PeekPredicts(depth: nat, lines: seq<string>, others: string -> string)
    requires forall i :: 0 <= i < |lines| ==> IsLine(lines[i])
    ensures ShownPieces(depth, Pieces(Sent(lines)), others) == Sent(ShownAll(depth, lines, others))
    decreases |lines|
  {
    if lines != [] {
      var line, rest := lines[0], lines[1..];
      PiecesOfSent(line, Sent(rest));
      ShownPiecesFirst(depth, line, Pieces(Sent(rest)), others);
      PeekPredicts(DepthAfter(depth, line), rest, others);
      assert lines == [line] + rest;
      ShownAllFirst(depth, line, rest, others);
    }
  }

  // ---- the name does not show ----

  lemma SkipSame(s: string, t: string, i: nat, e: nat)
    requires i < e <= |s| && e <= |t| && s[..e] == t[..e] && SkipSpaces(s, i) < e
    ensures SkipSpaces(t, i) == SkipSpaces(s, i)
    decreases e - i
  {
    assert s[i] == s[..e][i] == t[..e][i] == t[i];
    if IsSpace(s[i]) { SkipSame(s, t, i + 1, e); }
  }

  lemma SameWord(s: string, t: string, i: nat, e: nat, word: string)
    requires WordAt(s, i, word) && i + |word| <= e <= |s| && e <= |t| && s[..e] == t[..e]
    ensures WordAt(t, i, word)
  {
    assert s[i..i + |word|] == s[..e][i..i + |word|] && t[i..i + |word|] == t[..e][i..i + |word|];
  }

  lemma NameAtSame(line: string, name: string)
    requires NameAt(line).Some? && '\n' !in name && (name != [] ==> !IsSpace(name[0]))
    ensures NameAt(line[..NameAt(line).value] + name) == NameAt(line)
  {
    var e := NameAt(line).value;
    var other := line[..e] + name;
    var a := SkipSpaces(line, 0);
    var c := SkipSpaces(line, a + 3);
    assert other[..e] == line[..e];
    SkipSame(line, other, 0, e);
    SameWord(line, other, a, e, "set");
    SkipSame(line, other, a + 3, e);
    SameWord(line, other, c, e, "name");
    forall k | c + 4 <= k < e ensures IsSpace(other[k]) { assert other[k] == line[k]; }
    assert other[e..] == name;
  }

  /** Inside a community block, any other name in the same line shows the same. */
  lemma NameDoesNotShow(depth: nat, line: string, name: string, others: string -> string)
    requires MaskedByBlock(depth, line) && '\n' !in name && (name != [] ==> !IsSpace(name[0]))
    ensures Shown(depth, line[..NameAt(line).value] + name, others) == Shown(depth, line, others)
  {
    var e := NameAt(line).value;
    NameAtSame(line, name);
    assert (line[..e] + name)[..e] == line[..e];
    SetNameOpensNothing(line[..e] + name);
  }

  // ---- which lines those are ----

  lemma {:induction false} SkipBlanks(s: string, i: nat, j: nat)
    requires i <= j <= |s| && forall k :: i <= k < j ==> IsSpace(s[k])
    requires j < |s| ==> !IsSpace(s[j])
    ensures SkipSpaces(s, i) == j
    decreases j - i
  {
    if i < j { SkipBlanks(s, i + 1, j); }
  }

  lemma WordIsNoSpace(w: string, word: string)
    requires LowerCase(w) == word && word in {"set", "name"}
    ensures |w| == |word| && !IsSpace(w[0])
  {
    assert LowerCase(w)[0] == word[0];
  }

  /** `set` from `a`, `name` from `c` and the value from `e` on, with only white space around. */
  predicate NamedAt(s: string, a: nat, c: nat, e: nat) {
    && a + 3 < c && c + 4 < e <= |s|
    && Blank(s[..a]) && LowerCase(s[a..a + 3]) == "set" && Blank(s[a + 3..c])
    && LowerCase(s[c..c + 4]) == "name" && Blank(s[c + 4..e])
    && '\n' !in s[e..] && (e < |s| ==> !IsSpace(s[e]))
  }

  lemma BlankRange(s: string, i: nat, j: nat)
    requires i <= j <= |s|
    ensures Blank(s[i..j]) <==> forall k :: i <= k < j ==> IsSpace(s[k])
  {
    if Blank(s[i..j]) {
      forall k | i <= k < j ensures IsSpace(s[k]) { assert s[i..j][k - i] in s[i..j]; }
    }
  }

  lemma NamedAtIsNameAt(s: string, a: nat, c: nat, e: nat)
    requires NamedAt(s, a, c, e)
    ensures NameAt(s) == Some(e)
  {
    BlankRange(s, 0, a);
    BlankRange(s, a + 3, c);
    BlankRange(s, c + 4, e);
    WordIsNoSpace(s[a..a + 3], "set");
    WordIsNoSpace(s[c..c + 4], "name");
    SkipBlanks(s, 0, a);
    SkipBlanks(s, a + 3, c);
    SkipBlanks(s, c + 4, e);
  }

  lemma NameAtIsNamedAt(s: string) returns (a: nat, c: nat)
    requires NameAt(s).Some?
    ensures NamedAt(s, a, c, NameAt(s).value)
  {
    a := SkipSpaces(s, 0);
    c := SkipSpaces(s, a + 3);
    var e := SkipSpaces(s, c + 4);
    BlankRange(s, 0, a);
    BlankRange(s, a + 3, c);
    BlankRange(s, c + 4, e);
  }

  /** A line has a name to mask, from `e` on, exactly when it is `set`, `name` and a value. */
  lemma NameAtExactly(line: string, e: nat)
    ensures NameAt(line) == Some(e) <==> exists a, c :: NamedAt(line, a, c, e)
  {
    forall a, c | NamedAt(line, a, c, e) ensures NameAt(line) == Some(e) { NamedAtIsNameAt(line, a, c, e); }
    if NameAt(line) == Some(e) { var a, c := NameAtIsNamedAt(line); }
  }

  /** The law the masking is for: directly inside an outermost community block, the line is
      shown without the name; anywhere else the block rule leaves it to the other patterns. */
  lemma SetNameShown(lines: seq<string>, line: string, a: nat, c: nat, e: nat, others: string -> string)
    requires NamedAt(line, a, c, e)
    ensures Shown(DepthAfterAll(0, lines), line, others) ==
      if DirectlyInsideCommunity(OpenBlocks(lines)) then line[..e] + "<redacted>" else others(line)
  {
    NamedAtIsNameAt(line, a, c, e);
    MaskedExactlyInside(lines, line);
  }

  /** Space around a block line and the case of its letters do not count. */
  lemma BlockLines(before: string, x: string, after: string)
    requires Blank(before) && Blank(after) && Trimmed(x) && x != ""
    ensures OpensCommunity(before + x + after) <==> LowerCase(x) == "config system snmp community"
    ensures Opens(before + x + after) <==> "config " <= LowerCase(x)
    ensures Ends(before + x + after) <==> LowerCase(x) == "end"
    ensures Shows(before + x + after) <==> "show " <= LowerCase(x)
  {
    TrimBlanks(before, x, after);
  }
}
