/** Extraction of a function body from daemon source text: a string-aware brace
    matcher (qa/openrpc_contract_daemon.py). */
module FunctionBody {
  import opened Wrappers
  import opened Chars

  datatype Extraction = Body(text: string) | MissingFunction | MissingBody | Unterminated

  /** `str.find`: the first occurrence of `part` at or after `start`. */
  function Find(text: string, part: string, start: nat): (r: Option<nat>)
    ensures r.Some? ==> start <= r.value && OccursAt(text, part, r.value)
    ensures r.Some? ==> forall i | start <= i < r.value :: !OccursAt(text, part, i)
    ensures r.None? ==> forall i | start <= i :: !OccursAt(text, part, i)
    decreases |text| - start
  {
    if start + |part| > |text| then None
    else if OccursAt(text, part, start) then Some(start)
    else Find(text, part, start + 1)
  }

  // ----- the grammar -----

  /** A character inside a quoted string, plain or behind a backslash. */
  datatype StrChar = Lit(c: char) | Escaped(c: char)
  datatype Item = Plain(c: char) | Quoted(chars: seq<StrChar>) | Block(items: seq<Item>)

  predicate WellFormedChars(chars: seq<StrChar>) {
    forall i | 0 <= i < |chars| :: chars[i].Lit? ==> chars[i].c != '"' && chars[i].c != '\\'
  }

  predicate WellFormed(items: seq<Item>) {
    forall i | 0 <= i < |items| :: WellFormedItem(items[i])
  }

  predicate WellFormedItem(item: Item) {
    match item
    case Plain(c) => c != '"' && c != '{' && c != '}'
    case Quoted(chars) => WellFormedChars(chars)
    case Block(items) => forall i | 0 <= i < |items| :: WellFormedItem(items[i])
  }

  function PrintChars(chars: seq<StrChar>): string {
    if chars == [] then "" else PrintChar(chars[0]) + PrintChars(chars[1..])
  }

  function PrintChar(ch: StrChar): string {
    if ch.Lit? then [ch.c] else ['\\', ch.c]
  }

  function Print(items: seq<Item>): string
    decreases items, 0
  {
    if items == [] then "" else PrintItem(items[0]) + Print(items[1..])
  }

  function PrintItem(item: Item): string
    decreases item, 1
  {
    match item
    case Plain(c) => [c]
    case Quoted(chars) => ['"'] + PrintChars(chars) + ['"']
    case Block(items) => ['{'] + Print(items) + ['}']
  }

  // ----- the matcher -----

  /** The state of the scan between two characters. */
  datatype Mode = Mode(depth: int, inString: bool, escaped: bool)

  function Step(m: Mode, c: char): Mode {
    if m.inString then
      if m.escaped then m.(escaped := false)
      else if c == '\\' then m.(escaped := true)
      else m.(inString := c != '"')
    else if c == '"' then m.(inString := true)
    else if c == '{' then m.(depth := m.depth + 1)
    else if c == '}' then m.(depth := m.depth - 1)
    else m
  }

  /** Reading `c` in mode `m` ends the body. */
  predicate Closes(m: Mode, c: char) {
    !m.inString && c == '}' && m.depth == 1
  }

  /** How many characters of `s` are read until the body ends, the closing brace not
      counted. */
  function Close(s: string, m: Mode): Option<nat> {
    if s == "" then None
    else if Closes(m, s[0]) then Some(0)
    else Skip(Close(s[1..], Step(m, s[0])))
  }

  lemma {:induction false} CloseIsBrace(s: string, m: Mode)
    ensures Close(s, m).Some? ==> Close(s, m).value < |s| && s[Close(s, m).value] == '}'
    decreases |s|
  {
    if s != "" {
      CloseIsBrace(s[1..], Step(m, s[0]));
    }
  }

  const START: Mode := Mode(0, false, false)

  function Outside(depth: int): Mode { Mode(depth, false, false) }
  function Inside(depth: int): Mode { Mode(depth, true, false) }

  function Skip(r: Option<nat>): Option<nat> { Shift(r, 1) }

  function Shift(r: Option<nat>, n: nat): Option<nat> {
    match r case None => None case Some(m) => Some(m + n)
  }

  /** What extraction yields for source text and a function name. */
  function Extracted(text: string, name: string): Extraction {
    match Find(text, "fn " + name + "(", 0)
    case None => MissingFunction
    case Some(start) =>
      match Find(text, "{", start)
      case None => MissingBody
      case Some(brace) =>
        CloseIsBrace(text[brace..], START);
        CloseFrom(text, brace, START);
        match Close(text[brace..], START)
        case None => Unterminated
        case Some(n) => Body(text[brace + 1..brace + n])
  }

  method ExtractFunctionBody(text: string, name: string) returns (r: Extraction)
    ensures r == Extracted(text, name)
  {
    var start := Find(text, "fn " + name + "(", 0);
    if start.None? { return MissingFunction; }
    var brace := Find(text, "{", start.value);
    if brace.None? { return MissingBody; }
    var end := MatchBrace(text, brace.value);
    if end.None? { return Unterminated; }
    return Body(text[brace.value + 1..end.value]);
  }

  /** The loop over the characters from the opening brace on. */
  method MatchBrace(text: string, brace: nat) returns (end: Option<nat>)
    requires brace < |text|
    ensures end == Shift(Close(text[brace..], START), brace)
    ensures end.Some? ==> end.value < |text|
  {
    var depth, inString, escaped := 0, false, false;
    ghost var answer := Shift(Close(text[brace..], START), brace);
    for index := brace to |text|
      invariant answer == Shift(Close(text[index..], Mode(depth, inString, escaped)), index)
    {
      ghost var m := Mode(depth, inString, escaped);
      CloseFrom(text, index, m);
      var c := text[index];
      if inString {
        if escaped {
          escaped := false;
        } else if c == '\\' {
          escaped := true;
        } else if c == '"' {
          inString := false;
        }
        assert Mode(depth, inString, escaped) == Step(m, c);
        continue;
      }
      if c == '"' {
        inString := true;
      } else if c == '{' {
        depth := depth + 1;
      } else if c == '}' {
        depth := depth - 1;
        if depth == 0 {
          return Some(index);
        }
      }
      assert Mode(depth, inString, escaped) == Step(m, c);
    }
    return None;
  }

  lemma CloseFrom(text: string, i: nat, m: Mode)
    requires i < |text|
    ensures Close(text[i..], m) == if Closes(m, text[i]) then Some(0) else Skip(Close(text[i + 1..], Step(m, text[i])))
  {}

  // ----- printing then matching -----

  lemma CloseCons(c: char, rest: string, m: Mode)
    ensures Close([c] + rest, m) == if Closes(m, c) then Some(0) else Skip(Close(rest, Step(m, c)))
  {}

  lemma {:induction false} CloseAfterChars(chars: seq<StrChar>, rest: string, depth: int)
    requires WellFormedChars(chars)
    ensures Close(PrintChars(chars) + (['"'] + rest), Inside(depth)) == Shift(Close(rest, Outside(depth)), |PrintChars(chars)| + 1)
    decreases |chars|
  {
    var quoted := ['"'] + rest;
    if chars == [] {
      CloseCons('"', rest, Inside(depth));
      assert PrintChars(chars) + quoted == quoted;
    } else {
      CloseAfterChars(chars[1..], rest, depth);
      CloseAfterChar(chars[0], PrintChars(chars[1..]) + quoted, depth);
      assert PrintChars(chars) + quoted == PrintChar(chars[0]) + (PrintChars(chars[1..]) + quoted);
    }
  }

  lemma CloseAfterChar(ch: StrChar, later: string, depth: int)
    requires ch.Lit? ==> ch.c != '"' && ch.c != '\\'
    ensures Close(PrintChar(ch) + later, Inside(depth)) == Shift(Close(later, Inside(depth)), |PrintChar(ch)|)
  {}

  /** A printed block is read without changing depth or string state. */
  lemma {:induction false} CloseAfterItems(items: seq<Item>, rest: string, depth: int)
    requires WellFormed(items) && depth >= 1
    ensures Close(Print(items) + rest, Outside(depth)) == Shift(Close(rest, Outside(depth)), |Print(items)|)
    decreases items, 0
  {
    if items == [] {
      assert Print(items) + rest == rest;
    } else {
      var later := Print(items[1..]) + rest;
      assert Print(items) + rest == PrintItem(items[0]) + later;
      CloseAfterItem(items[0], later, depth);
      CloseAfterItems(items[1..], rest, depth);
    }
  }

  lemma {:induction false} CloseAfterItem(item: Item, rest: string, depth: int)
    requires WellFormedItem(item) && depth >= 1
    ensures Close(PrintItem(item) + rest, Outside(depth)) == Shift(Close(rest, Outside(depth)), |PrintItem(item)|)
    decreases item, 1
  {
    match item
    case Plain(c) => CloseCons(c, rest, Outside(depth));
    case Quoted(chars) => CloseAfterQuoted(chars, rest, depth);
    case Block(items) =>
      Delimited('{', Print(items), '}', rest);
      CloseAfterItems(items, ['}'] + rest, depth + 1);
      CloseAfterBlock(PrintItem(item) + rest, Print(items) + (['}'] + rest), ['}'] + rest, rest, |Print(items)|, depth);
  }

  lemma CloseAfterQuoted(chars: seq<StrChar>, rest: string, depth: int)
    requires WellFormedChars(chars)
    ensures Close(['"'] + PrintChars(chars) + ['"'] + rest, Outside(depth))
      == Shift(Close(rest, Outside(depth)), |PrintChars(chars)| + 2)
  {
    Delimited('"', PrintChars(chars), '"', rest);
    CloseCons('"', PrintChars(chars) + (['"'] + rest), Outside(depth));
    CloseAfterChars(chars, rest, depth);
  }

  lemma CloseAfterBlock(s: string, inner: string, closing: string, rest: string, n: nat, depth: int)
    requires depth >= 1 && s == ['{'] + inner && closing == ['}'] + rest
    requires Close(inner, Outside(depth + 1)) == Shift(Close(closing, Outside(depth + 1)), n)
    ensures Close(s, Outside(depth)) == Shift(Close(rest, Outside(depth)), n + 2)
  {
    CloseOpening(inner, depth);
    CloseClosing(rest, depth);
    ShiftedTwice(Close(s, Outside(depth)), Close(inner, Outside(depth + 1)), Close(closing, Outside(depth + 1)), Close(rest, Outside(depth)), n);
  }

  lemma CloseOpening(inner: string, depth: int)
    requires depth >= 1
    ensures Close(['{'] + inner, Outside(depth)) == Skip(Close(inner, Outside(depth + 1)))
  {
    CloseCons('{', inner, Outside(depth));
  }

  lemma CloseClosing(rest: string, depth: int)
    requires depth >= 1
    ensures Close(['}'] + rest, Outside(depth + 1)) == Skip(Close(rest, Outside(depth)))
  {
    CloseCons('}', rest, Outside(depth + 1));
  }

  lemma ShiftedTwice(whole: Option<nat>, inner: Option<nat>, closing: Option<nat>, rest: Option<nat>, n: nat)
    requires whole == Skip(inner) && inner == Shift(closing, n) && closing == Skip(rest)
    ensures whole == Shift(rest, n + 2)
  {}

  lemma Delimited(open: char, middle: string, close: char, rest: string)
    ensures ([open] + middle + [close]) + rest == [open] + (middle + ([close] + rest))
  {}

  // ----- matching then parsing -----

  lemma {:induction false} StringIsParsed(s: string, depth: int) returns (chars: seq<StrChar>, rest: string)
    requires Close(s, Inside(depth)).Some?
    ensures WellFormedChars(chars) && s == PrintChars(chars) + "\"" + rest
    decreases |s|
  {
    if s[0] == '"' {
      chars, rest := [], s[1..];
    } else {
      var first: StrChar;
      var later;
      if s[0] == '\\' {
        assert Close(s[1..], Mode(depth, true, true)).Some?;
        first := Escaped(s[1]);
        later, rest := StringIsParsed(s[1..][1..], depth);
        assert s == ['\\', s[1]] + s[1..][1..];
      } else {
        first := Lit(s[0]);
        later, rest := StringIsParsed(s[1..], depth);
        assert s == [s[0]] + s[1..];
      }
      chars := [first] + later;
      assert chars[1..] == later;
    }
  }

  /** If the depth is closed at all, the text up to the brace that closes the innermost
      open block is the print of a block. */
  lemma {:induction false} BlockIsParsed(s: string, depth: int) returns (items: seq<Item>, rest: string)
    requires depth >= 1 && Close(s, Outside(depth)).Some?
    ensures WellFormed(items) && s == Print(items) + (['}'] + rest)
    decreases |s|
  {
    if s[0] == '}' {
      items, rest := [], s[1..];
    } else {
      var first, after := FirstItem(s, depth);
      CloseAfterItem(first, after, depth);
      var later;
      later, rest := BlockIsParsed(after, depth);
      items := [first] + later;
      assert items[1..] == later;
    }
  }

  lemma {:induction false} FirstItem(s: string, depth: int) returns (first: Item, after: string)
    requires depth >= 1 && Close(s, Outside(depth)).Some? && s[0] != '}'
    ensures WellFormedItem(first) && s == PrintItem(first) + after && |after| < |s|
    decreases |s|, 0
  {
    assert s == [s[0]] + s[1..];
    if s[0] == '"' {
      var chars;
      chars, after := StringIsParsed(s[1..], depth);
      first := Quoted(chars);
    } else if s[0] == '{' {
      var inner;
      inner, after := BlockIsParsed(s[1..], depth + 1);
      first := Block(inner);
    } else {
      first, after := Plain(s[0]), s[1..];
    }
  }

  // ----- exactness -----

  /** `text` is a header, a block in braces and a tail, where `header` ends at the first
      "{" after the first occurrence of the marker. */
  ghost predicate IsFunction(text: string, name: string, header: string, items: seq<Item>, tail: string) {
    && WellFormed(items) && text == header + "{" + Print(items) + "}" + tail
    && Find(text, "fn " + name + "(", 0).Some?
    && Find(text, "{", Find(text, "fn " + name + "(", 0).value) == Some(|header|)
  }

  lemma CloseBraced(items: seq<Item>, tail: string)
    requires WellFormed(items)
    ensures Close(['{'] + (Print(items) + (['}'] + tail)), START) == Some(|Print(items)| + 1)
  {
    CloseCons('{', Print(items) + (['}'] + tail), START);
    CloseAfterItems(items, ['}'] + tail, 1);
    CloseCons('}', tail, Outside(1));
  }

  /** Round trip: the body extracted from a printed function is the printed block. */
  lemma PrintedFunctionIsExtracted(text: string, name: string, header: string, items: seq<Item>, tail: string)
    requires IsFunction(text, name, header, items, tail)
    ensures Extracted(text, name) == Body(Print(items))
  {
    CloseBraced(items, tail);
    Taken(text, header, Print(items), tail);
  }

  lemma Taken(text: string, header: string, body: string, tail: string)
    requires text == header + "{" + body + "}" + tail
    ensures text[|header|..] == ['{'] + (body + (['}'] + tail))
    ensures text[|header| + 1..|header| + 1 + |body|] == body
  {}

  lemma ExtractedIsPrinted(text: string, name: string)
      returns (header: string, items: seq<Item>, tail: string)
    requires Extracted(text, name).Body?
    ensures IsFunction(text, name, header, items, tail)
  {
    var brace := Find(text, "{", Find(text, "fn " + name + "(", 0).value).value;
    assert text[brace] == '{' by { assert OccursAt(text, "{", brace) && text[brace..brace + 1][0] == text[brace]; }
    assert Close(text[brace + 1..], Outside(1)).Some? by { CloseFrom(text, brace, START); }
    header := text[..brace];
    items, tail := BlockIsParsed(text[brace + 1..], 1);
    Reassembled(text, brace, Print(items), tail);
  }

  lemma Reassembled(text: string, brace: nat, body: string, tail: string)
    requires brace < |text| && text[brace] == '{' && text[brace + 1..] == body + (['}'] + tail)
    ensures text == text[..brace] + "{" + body + "}" + tail
  {}

  /** Exactness: the function yields `body` iff `body` is the print of a block of the
      grammar that stands in braces where the function's body starts. */
  lemma ExtractedIffPrintedBlock(text: string, name: string, body: string)
    ensures Extracted(text, name) == Body(body)
      <==> exists header, items, tail :: IsFunction(text, name, header, items, tail) && body == Print(items)
  {
    if Extracted(text, name) == Body(body) {
      var header, items, tail := ExtractedIsPrinted(text, name);
      PrintedFunctionIsExtracted(text, name, header, items, tail);
    }
    forall header, items, tail | IsFunction(text, name, header, items, tail) && body == Print(items)
      ensures Extracted(text, name) == Body(body)
    {
      PrintedFunctionIsExtracted(text, name, header, items, tail);
    }
  }

  /** The mode after reading all of `s`. */
  function After(s: string, m: Mode): Mode {
    if s == "" then m else After(s[1..], Step(m, s[0]))
  }

  lemma {:induction false} CloseIsFirstClosing(s: string, m: Mode)
    ensures Close(s, m).None? <==> forall p | 0 <= p < |s| :: !Closes(After(s[..p], m), s[p])
  {
    if s != "" {
      CloseIsFirstClosing(s[1..], Step(m, s[0]));
      forall p | 0 < p < |s| ensures After(s[..p], m) == After(s[1..][..p - 1], Step(m, s[0])) {
        assert s[..p][1..] == s[1..][..p - 1];
      }
      if Close(s, m).Some? && !Closes(m, s[0]) {
        var p :| 0 <= p < |s[1..]| && Closes(After(s[1..][..p], Step(m, s[0])), s[1..][p]);
        assert Closes(After(s[..p + 1], m), s[p + 1]);
      }
      assert After(s[..0], m) == m;
    }
  }

  /** `part` first occurs at `i`, from `start` on. */
  ghost predicate IsFirst(text: string, part: string, start: nat, i: nat) {
    start <= i && OccursAt(text, part, i) && forall k | start <= k < i :: !OccursAt(text, part, k)
  }

  ghost predicate NeverOccurs(text: string, part: string, start: nat) {
    forall k: nat | start <= k :: !OccursAt(text, part, k)
  }

  /** The function's text starts at `start`, and its body, if it has one, at `brace`. */
  ghost predicate StandsAt(text: string, name: string, start: nat, brace: nat) {
    IsFirst(text, "fn " + name + "(", 0, start) && IsFirst(text, "{", start, brace)
  }

  /** No position from `brace` on closes the depth outside a string. */
  predicate NeverCloses(text: string, brace: nat) {
    forall p | brace <= p < |text| :: !Closes(After(text[brace..p], START), text[p])
  }

  lemma FindIff(text: string, part: string, start: nat, i: nat)
    ensures Find(text, part, start) == Some(i) <==> IsFirst(text, part, start, i)
    ensures Find(text, part, start).None? <==> NeverOccurs(text, part, start)
  {}

  lemma NeverClosesIff(text: string, brace: nat)
    requires brace < |text|
    ensures Close(text[brace..], START).None? <==> NeverCloses(text, brace)
  {
    var s := text[brace..];
    CloseIsFirstClosing(s, START);
    forall p | brace <= p < |text| ensures text[brace..p] == s[..p - brace] && text[p] == s[p - brace] {}
    if NeverCloses(text, brace) {
      forall q | 0 <= q < |s| ensures !Closes(After(s[..q], START), s[q]) {
        assert text[brace..brace + q] == s[..q];
      }
    }
  }

  /** Exactly when each of the failures is reported, whatever the text and the name: the marker
      occurs nowhere; or no brace stands at or after it; or no later position closes. */
  lemma FailuresIff(text: string, name: string)
    ensures Extracted(text, name).MissingFunction? <==> NeverOccurs(text, "fn " + name + "(", 0)
    ensures Extracted(text, name).MissingBody?
      <==> exists start :: IsFirst(text, "fn " + name + "(", 0, start) && NeverOccurs(text, "{", start)
    ensures Extracted(text, name).Unterminated?
      <==> exists start, brace :: StandsAt(text, name, start, brace) && NeverCloses(text, brace)
  {
    var marker := "fn " + name + "(";
    var found := Find(text, marker, 0);
    forall i: nat ensures found == Some(i) <==> IsFirst(text, marker, 0, i) { FindIff(text, marker, 0, i); }
    FindIff(text, marker, 0, 0);
    if found.Some? {
      var body := Find(text, "{", found.value);
      forall i: nat ensures body == Some(i) <==> IsFirst(text, "{", found.value, i) { FindIff(text, "{", found.value, i); }
      FindIff(text, "{", found.value, 0);
      if body.Some? {
        assert StandsAt(text, name, found.value, body.value);
        NeverClosesIff(text, body.value);
      }
    }
  }

  /** The same without the matcher: a body is unterminated iff it starts but no block of the
      grammar stands in braces there. */
  lemma UnterminatedIffNoBlock(text: string, name: string)
    ensures Extracted(text, name).Unterminated? <==>
      && (exists start, brace :: StandsAt(text, name, start, brace))
      && !exists header, items, tail :: IsFunction(text, name, header, items, tail)
  {
    FailuresIff(text, name);
    if Extracted(text, name).Body? {
      var header, items, tail := ExtractedIsPrinted(text, name);
    }
    if header, items, tail :| IsFunction(text, name, header, items, tail) {
      PrintedFunctionIsExtracted(text, name, header, items, tail);
    }
    if start, brace :| StandsAt(text, name, start, brace) {
      FindIff(text, "fn " + name + "(", 0, start);
      FindIff(text, "{", start, brace);
    }
  }
}
