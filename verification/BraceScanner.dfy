/** The brace scanner of pkg/backoff/http_aware.go. Strings are read byte by byte; the bytes that
    matter are ASCII, which UTF-8 never uses inside a longer character. */
module BraceScanner {

  /** The three loop variables of findMatchingBrace. */
  datatype Lex = Lex(depth: int, inString: bool, escaped: bool)

  const OUTSIDE := Lex(0, false, false)

  /** One iteration of the scan. */
  function Step(l: Lex, c: char): Lex {
    if l.escaped then l.(escaped := false)
    else if c == '\\' && l.inString then l.(escaped := true)
    else if c == '"' then l.(inString := !l.inString)
    else if l.inString then l
    else if c == '{' then l.(depth := l.depth + 1)
    else if c == '}' then l.(depth := l.depth - 1)
    else l
  }

  ghost function Feed(l: Lex, text: string): Lex {
    if text == [] then l else Step(Feed(l, text[..|text| - 1]), text[|text| - 1])
  }

  // ---- an independent reading of the text: quoted strings and single marks ----

  datatype Item = Plain(c: char) | Escaped(c: char)
  datatype Token = Quoted(items: seq<Item>) | Mark(c: char)

  ghost predicate WfItem(i: Item) { i.Plain? ==> i.c != '"' && i.c != '\\' }

  ghost predicate WfItems(items: seq<Item>) {
    forall k :: 0 <= k < |items| ==> WfItem(items[k])
  }

  ghost predicate WfToken(t: Token) {
    match t
    case Quoted(items) => WfItems(items)
    case Mark(c) => c != '"'
  }

  ghost predicate WfTokens(ts: seq<Token>) {
    forall k :: 0 <= k < |ts| ==> WfToken(ts[k])
  }

  function RenderItems(items: seq<Item>): string {
    if items == [] then []
    else
      var last := items[|items| - 1];
      RenderItems(items[..|items| - 1]) + if last.Plain? then [last.c] else ['\\', last.c]
  }

  function RenderToken(t: Token): (s: string)
    ensures s != []
  {
    match t
    case Quoted(items) => ['"'] + RenderItems(items) + ['"']
    case Mark(c) => [c]
  }

  function Render(ts: seq<Token>): string {
    if ts == [] then [] else Render(ts[..|ts| - 1]) + RenderToken(ts[|ts| - 1])
  }

  function Weight(t: Token): int {
    if t == Mark('{') then 1 else if t == Mark('}') then -1 else 0
  }

  /** Opening minus closing braces outside quoted strings. */
  function Balance(ts: seq<Token>): int {
    if ts == [] then 0 else Balance(ts[..|ts| - 1]) + Weight(ts[|ts| - 1])
  }

  /** Depth after reading position `p`. */
  ghost function DepthAt(s: string, start: nat, p: int): int
    requires start <= p < |s|
  {
    Feed(OUTSIDE, s[start..p + 1]).depth
  }

  /** The text from the brace at `start` up to and including `p` is a run of complete tokens
      whose braces balance. */
  ghost predicate ClosedBy(s: string, start: nat, p: int) {
    && start <= p < |s|
    && exists ts :: WfTokens(ts) && Render(ts) == s[start..p + 1] && Balance(ts) == 0
  }

  /** What findMatchingBrace promises: the first position that closes the brace, or -1 if none does. */
  ghost predicate IsMatch(s: string, start: nat, r: int) {
    if start >= |s| || s[start] != '{' then r == -1
    else if r == -1 then forall p :: !ClosedBy(s, start, p)
    else ClosedBy(s, start, r) && forall p :: p < r ==> !ClosedBy(s, start, p)
  }

  method FindMatchingBrace(s: string, start: nat) returns (r: int)
    ensures IsMatch(s, start, r)
  {
    if start >= |s| || s[start] != '{' {
      return -1;
    }
    var depth, inString, escaped := 0, false, false;
    for i := start to |s|
      invariant Lex(depth, inString, escaped) == Feed(OUTSIDE, s[start..i])
      invariant i > start ==> depth >= 1
      invariant i == start ==> depth == 0
      invariant escaped ==> inString
      invariant forall p :: start <= p < i ==> DepthAt(s, start, p) >= 1
    {
      var c := s[i];
      assert s[start..i + 1][..i - start] == s[start..i];
      assert Feed(OUTSIDE, s[start..i + 1]) == Step(Lex(depth, inString, escaped), c);
      if escaped {
        escaped := false;
        continue;
      }
      if c == '\\' && inString {
        escaped := true;
        continue;
      }
      if c == '"' {
        inString := !inString;
        continue;
      }
      if inString {
        continue;
      }
      if c == '{' {
        depth := depth + 1;
      } else if c == '}' {
        depth := depth - 1;
        if depth == 0 {
          OpenUntil(s, start, i);
          ZeroCloses(s, start, i);
          return i;
        }
      }
    }
    OpenUntil(s, start, |s|);
    return -1;
  }

  /** While the depth has stayed positive, nothing has closed the brace. */
  lemma OpenUntil(s: string, start: nat, end: nat)
    requires start <= end <= |s|
    requires forall p :: start <= p < end ==> DepthAt(s, start, p) >= 1
    ensures forall p :: p < end ==> !ClosedBy(s, start, p)
  {
    forall p | start <= p < end ensures !ClosedBy(s, start, p) {
      forall ts | WfTokens(ts) && Render(ts) == s[start..p + 1] ensures Balance(ts) != 0 {
        FeedTokens(OUTSIDE, ts);
        assert DepthAt(s, start, p) >= 1;
      }
    }
  }

  lemma ZeroCloses(s: string, start: nat, p: nat)
    requires start <= p < |s|
    requires var l := Feed(OUTSIDE, s[start..p + 1]); l.depth == 0 && !l.inString
    ensures ClosedBy(s, start, p)
  {
    var ts, items := Tokenize(s[start..p + 1]);
    assert Render(ts) == s[start..p + 1];
    FeedTokens(OUTSIDE, ts);
  }

  // ---- the scan against the token reading ----

  lemma {:induction false} FeedConcat(l: Lex, a: string, b: string)
    ensures Feed(l, a + b) == Feed(Feed(l, a), b)
  {
    if b == [] {
      assert a + b == a;
    } else {
      assert (a + b)[..|a + b| - 1] == a + b[..|b| - 1];
      FeedConcat(l, a, b[..|b| - 1]);
    }
  }

  /** Inside a string no item moves the depth or ends the string. */
  lemma {:induction false} FeedItems(l: Lex, items: seq<Item>)
    requires l.inString && !l.escaped && WfItems(items)
    ensures Feed(l, RenderItems(items)) == l
  {
    if items != [] {
      var init, last := items[..|items| - 1], items[|items| - 1];
      FeedItems(l, init);
      FeedConcat(l, RenderItems(init), if last.Plain? then [last.c] else ['\\', last.c]);
      FeedOne(l, last);
    }
  }

  lemma FeedOne(l: Lex, i: Item)
    requires l.inString && !l.escaped && WfItem(i)
    ensures Feed(l, if i.Plain? then [i.c] else ['\\', i.c]) == l
  {
    if i.Escaped? {
      assert ['\\', i.c][..1] == ['\\'];
      assert Feed(l, ['\\']) == l.(escaped := true) by { assert ['\\'][..0] == []; }
    }
  }

  lemma FeedToken(l: Lex, t: Token)
    requires !l.inString && !l.escaped && WfToken(t)
    ensures Feed(l, RenderToken(t)) == l.(depth := l.depth + Weight(t))
  {
    match t
    case Mark(c) =>
    case Quoted(items) =>
      var q := ['"'];
      FeedConcat(l, q + RenderItems(items), q);
      FeedConcat(l, q, RenderItems(items));
      assert Feed(l, q) == l.(inString := true);
      FeedItems(l.(inString := true), items);
      assert Feed(l.(inString := true), q) == l;
  }

  /** Over complete tokens the scan ends outside strings, deeper by exactly their balance. */
  lemma {:induction false} FeedTokens(l: Lex, ts: seq<Token>)
    requires !l.inString && !l.escaped && WfTokens(ts)
    ensures Feed(l, Render(ts)) == l.(depth := l.depth + Balance(ts))
  {
    if ts != [] {
      var init, last := ts[..|ts| - 1], ts[|ts| - 1];
      FeedTokens(l, init);
      FeedConcat(l, Render(init), RenderToken(last));
      FeedToken(l.(depth := l.depth + Balance(init)), last);
    }
  }

  /** What is left of an unfinished string after the last complete token. */
  function OpenPart(l: Lex, items: seq<Item>): string {
    if l.escaped then ['"'] + RenderItems(items) + ['\\']
    else if l.inString then ['"'] + RenderItems(items)
    else []
  }

  /** Every text splits into complete tokens and possibly one unfinished string. */
  lemma {:induction false} Tokenize(text: string) returns (ts: seq<Token>, items: seq<Item>)
    ensures WfTokens(ts) && WfItems(items)
    ensures var l := Feed(OUTSIDE, text); (l.escaped ==> l.inString) && text == Render(ts) + OpenPart(l, items)
  {
    if text == [] {
      return [], [];
    }
    var n := |text| - 1;
    var c := text[n];
    ts, items := Tokenize(text[..n]);
    assert text == text[..n] + [c];
    ts, items := TokenizeOne(Feed(OUTSIDE, text[..n]), ts, items, c);
  }

  lemma TokenizeOne(l: Lex, ts: seq<Token>, items: seq<Item>, c: char) returns (ts': seq<Token>, items': seq<Item>)
    requires WfTokens(ts) && WfItems(items) && (l.escaped ==> l.inString)
    ensures WfTokens(ts') && WfItems(items') && (Step(l, c).escaped ==> Step(l, c).inString)
    ensures Render(ts) + OpenPart(l, items) + [c] == Render(ts') + OpenPart(Step(l, c), items')
  {
    if l.inString {
      ts', items' := TokenizeInside(l, ts, items, c);
    } else if c == '"' {
      ts', items' := ts, [];
    } else {
      items' := items;
      ts' := PushToken(ts, Mark(c));
    }
  }

  lemma TokenizeInside(l: Lex, ts: seq<Token>, items: seq<Item>, c: char) returns (ts': seq<Token>, items': seq<Item>)
    requires WfTokens(ts) && WfItems(items) && l.inString
    ensures WfTokens(ts') && WfItems(items') && (Step(l, c).escaped ==> Step(l, c).inString)
    ensures Render(ts) + OpenPart(l, items) + [c] == Render(ts') + OpenPart(Step(l, c), items')
  {
    var r, m, q := Render(ts), RenderItems(items), ['"'];
    if l.escaped {
      ts' := ts;
      items' := PushItem(items, Escaped(c));
      assert r + (q + m + ['\\']) + [c] == r + (q + (m + ['\\', c]));
    } else if c == '"' {
      items' := items;
      ts' := PushToken(ts, Quoted(items));
      assert r + (q + m) + [c] == r + (q + m + q);
    } else if c == '\\' {
      ts', items' := ts, items;
      assert r + (q + m) + [c] == r + (q + m + ['\\']);
    } else {
      ts' := ts;
      items' := PushItem(items, Plain(c));
      assert r + (q + m) + [c] == r + (q + (m + [c]));
    }
  }

  lemma PushItem(items: seq<Item>, i: Item) returns (r: seq<Item>)
    requires WfItems(items) && WfItem(i)
    ensures WfItems(r) && RenderItems(r) == RenderItems(items) + if i.Plain? then [i.c] else ['\\', i.c]
  {
    r := items + [i];
    assert r[..|r| - 1] == items;
  }

  lemma PushToken(ts: seq<Token>, t: Token) returns (r: seq<Token>)
    requires WfTokens(ts) && WfToken(t)
    ensures WfTokens(r) && Render(r) == Render(ts) + RenderToken(t)
  {
    r := ts + [t];
    assert r[..|r| - 1] == ts;
  }
}
