/** JSON texts by the grammar of sections 2 to 7 of RFC 8259, as trees that keep their whitespace. */
module JsonText {
  import opened BraceScanner

  datatype Json =
    | Object(pad: string, members: Members)
    | Array(pad: string, elements: Elements)
    | String(items: seq<Item>)
    | Scalar(text: string)

  /** Each member carries the whitespace around its name, its colon and its value. */
  datatype Members =
    | NoMember
    | Member(before: string, name: seq<Item>, middle: string, gap: string, value: Json, after: string, rest: Members)

  datatype Elements =
    | NoElement
    | Element(before: string, value: Json, after: string, rest: Elements)

  ghost predicate IsSpace(s: string) {
    forall k :: 0 <= k < |s| ==> s[k] in " \t\n\r"
  }

  /** The three literal names, and every number (with some sequences that are not numbers). */
  ghost predicate IsScalar(s: string) {
    s in {"true", "false", "null"} || (s != [] && forall k :: 0 <= k < |s| ==> s[k] in "0123456789+-.eE")
  }

  ghost predicate Wf(v: Json) {
    match v
    case Object(pad, ms) => IsSpace(pad) && WfMembers(ms)
    case Array(pad, es) => IsSpace(pad) && WfElements(es)
    case String(items) => WfItems(items)
    case Scalar(text) => IsScalar(text)
  }

  ghost predicate WfMembers(ms: Members) {
    ms.Member? ==> IsSpace(ms.before) && WfItems(ms.name) && IsSpace(ms.middle) && IsSpace(ms.gap)
                   && Wf(ms.value) && IsSpace(ms.after) && WfMembers(ms.rest)
  }

  ghost predicate WfElements(es: Elements) {
    es.Element? ==> IsSpace(es.before) && Wf(es.value) && IsSpace(es.after) && WfElements(es.rest)
  }

  // ---- serialised text ----

  function Text(v: Json): string {
    match v
    case Object(pad, ms) => "{" + pad + MembersText(ms) + "}"
    case Array(pad, es) => "[" + pad + ElementsText(es) + "]"
    case String(items) => "\"" + RenderItems(items) + "\""
    case Scalar(text) => text
  }

  function MembersText(ms: Members): string {
    match ms
    case NoMember => ""
    case Member(before, name, middle, gap, value, after, rest) =>
      before + "\"" + RenderItems(name) + "\"" + middle + ":" + gap + Text(value) + after
      + (if rest.Member? then "," else "") + MembersText(rest)
  }

  function ElementsText(es: Elements): string {
    match es
    case NoElement => ""
    case Element(before, value, after, rest) =>
      before + Text(value) + after + (if rest.Element? then "," else "") + ElementsText(rest)
  }

  // ---- how the scan passes over it ----

  /** Reading `text` at any depth ends at that depth outside strings, and never goes below it. */
  ghost predicate Neutral(text: string) {
    forall d :: Passes(Lex(d, false, false), text, d)
  }

  ghost predicate Passes(l: Lex, text: string, floor: int) {
    && Feed(l, text) == l
    && forall k :: 0 <= k <= |text| ==> Feed(l, text[..k]).depth >= floor
  }

  lemma PassesConcat(l: Lex, a: string, b: string, floor: int)
    requires Passes(l, a, floor) && Passes(l, b, floor)
    ensures Passes(l, a + b, floor)
  {
    FeedConcat(l, a, b);
    forall k | 0 <= k <= |a + b| ensures Feed(l, (a + b)[..k]).depth >= floor {
      if k <= |a| {
        assert (a + b)[..k] == a[..k];
      } else {
        assert (a + b)[..k] == a + b[..k - |a|];
        FeedConcat(l, a, b[..k - |a|]);
      }
    }
  }

  lemma NeutralConcat(a: string, b: string)
    requires Neutral(a) && Neutral(b)
    ensures Neutral(a + b)
  {
    forall d ensures Passes(Lex(d, false, false), a + b, d) {
      assert Passes(Lex(d, false, false), a, d) && Passes(Lex(d, false, false), b, d);
      PassesConcat(Lex(d, false, false), a, b, d);
    }
  }

  /** Text without braces and quotes. */
  lemma {:induction false} PlainIsNeutral(text: string)
    requires forall k :: 0 <= k < |text| ==> text[k] != '{' && text[k] != '}' && text[k] != '"'
    ensures Neutral(text)
  {
    if text != [] {
      var n := |text| - 1;
      PlainIsNeutral(text[..n]);
      assert text == text[..n] + [text[n]];
      forall d ensures Passes(Lex(d, false, false), [text[n]], d) {
        var l := Lex(d, false, false);
        assert Feed(l, [text[n]]) == l;
        forall k | 0 <= k <= 1 ensures Feed(l, [text[n]][..k]).depth >= d {
          assert k == 1 ==> [text[n]][..k] == [text[n]];
        }
      }
      NeutralConcat(text[..n], [text[n]]);
    } else {
      forall d ensures Passes(Lex(d, false, false), text, d) {
      }
    }
  }

  /** Within a string nothing but an escape is pending, and the depth stands still. */
  lemma {:induction false} DepthInString(l: Lex, items: seq<Item>, k: nat)
    requires l.inString && !l.escaped && WfItems(items) && k <= |RenderItems(items)|
    ensures Feed(l, RenderItems(items)[..k]).depth == l.depth
  {
    var text := RenderItems(items);
    if items != [] {
      var init, last := items[..|items| - 1], items[|items| - 1];
      var head := RenderItems(init);
      if k <= |head| {
        DepthInString(l, init, k);
        assert text[..k] == head[..k];
      } else {
        FeedItems(l, init);
        var tail := if last.Plain? then [last.c] else ['\\', last.c];
        assert text[..k] == head + tail[..k - |head|];
        FeedConcat(l, head, tail[..k - |head|]);
        FeedOne(l, last);
        if k < |text| {
          assert tail[..k - |head|] == ['\\'];
          assert Feed(l, ['\\']) == l.(escaped := true);
        } else {
          assert tail[..k - |head|] == tail;
        }
      }
    }
  }

  lemma QuotedIsNeutral(items: seq<Item>)
    requires WfItems(items)
    ensures Neutral("\"" + RenderItems(items) + "\"")
  {
    var q, m := "\"", RenderItems(items);
    var text := q + m + q;
    forall d ensures Passes(Lex(d, false, false), text, d) {
      var l := Lex(d, false, false);
      FeedToken(l, Quoted(items));
      assert RenderToken(Quoted(items)) == text;
      assert Feed(l, q) == l.(inString := true);
      forall k | 0 <= k <= |text| ensures Feed(l, text[..k]).depth >= d {
        if k == |text| {
          assert text[..k] == text;
        } else if k > 0 {
          assert text[..k] == q + m[..k - 1];
          FeedConcat(l, q, m[..k - 1]);
          DepthInString(l.(inString := true), items, k - 1);
        }
      }
    }
  }

  lemma {:induction false} ValueIsNeutral(v: Json)
    requires Wf(v)
    ensures Neutral(Text(v))
    decreases v, 0
  {
    match v
    case Scalar(text) => PlainIsNeutral(text);
    case String(items) => QuotedIsNeutral(items);
    case Array(pad, es) =>
      ElementsAreNeutral(es);
      PlainIsNeutral("[");
      PlainIsNeutral(pad);
      PlainIsNeutral("]");
      NeutralConcat("[", pad);
      NeutralConcat("[" + pad, ElementsText(es));
      NeutralConcat("[" + pad + ElementsText(es), "]");
    case Object(pad, ms) =>
      InsideIsNeutral(pad, ms);
      assert Text(v) == "{" + (pad + MembersText(ms)) + "}";
      forall d ensures Passes(Lex(d, false, false), Text(v), d) {
        Braced(Lex(d, false, false), pad + MembersText(ms), Text(v));
      }
  }

  lemma InsideIsNeutral(pad: string, ms: Members)
    requires IsSpace(pad) && WfMembers(ms)
    ensures Neutral(pad + MembersText(ms))
    decreases ms, 1
  {
    MembersAreNeutral(ms);
    PlainIsNeutral(pad);
    NeutralConcat(pad, MembersText(ms));
  }

  lemma {:induction false} ElementsAreNeutral(es: Elements)
    requires WfElements(es)
    ensures Neutral(ElementsText(es))
    decreases es, 0
  {
    match es
    case NoElement => PlainIsNeutral("");
    case Element(before, value, after, rest) =>
      var comma := if rest.Element? then "," else "";
      PlainIsNeutral(before);
      PlainIsNeutral(after);
      PlainIsNeutral(comma);
      ValueIsNeutral(value);
      ElementsAreNeutral(rest);
      NeutralConcat(before, Text(value));
      NeutralConcat(before + Text(value), after);
      NeutralConcat(before + Text(value) + after, comma);
      NeutralConcat(before + Text(value) + after + comma, ElementsText(rest));
  }

  lemma {:induction false} MembersAreNeutral(ms: Members)
    requires WfMembers(ms)
    ensures Neutral(MembersText(ms))
    decreases ms, 0
  {
    match ms
    case NoMember => PlainIsNeutral("");
    case Member(before, name, middle, gap, value, after, rest) =>
      var comma := if rest.Member? then "," else "";
      var head := before + "\"" + RenderItems(name) + "\"" + middle + ":" + gap;
      NameIsNeutral(before, name, middle, gap);
      PlainIsNeutral(after);
      PlainIsNeutral(comma);
      ValueIsNeutral(value);
      MembersAreNeutral(rest);
      NeutralConcat(head, Text(value));
      NeutralConcat(head + Text(value), after);
      NeutralConcat(head + Text(value) + after, comma);
      NeutralConcat(head + Text(value) + after + comma, MembersText(rest));
  }

  lemma NameIsNeutral(before: string, name: seq<Item>, middle: string, gap: string)
    requires IsSpace(before) && WfItems(name) && IsSpace(middle) && IsSpace(gap)
    ensures Neutral(before + "\"" + RenderItems(name) + "\"" + middle + ":" + gap)
  {
    var quoted, colon := "\"" + RenderItems(name) + "\"", middle + ":" + gap;
    PlainIsNeutral(before);
    PlainIsNeutral(colon);
    QuotedIsNeutral(name);
    NeutralConcat(before, quoted);
    NeutralConcat(before + quoted, colon);
    assert before + quoted + colon == before + "\"" + RenderItems(name) + "\"" + middle + ":" + gap;
  }

  /** A neutral text in braces is neutral, and is deeper everywhere strictly inside. */
  lemma Braced(l: Lex, inside: string, text: string)
    requires !l.inString && !l.escaped && Neutral(inside) && text == "{" + inside + "}"
    ensures Passes(l, text, l.depth)
    ensures forall k :: 0 < k < |text| ==> Feed(l, text[..k]).depth >= l.depth + 1
  {
    var up := l.(depth := l.depth + 1);
    assert Feed(l, "{") == up;
    assert Passes(Lex(l.depth + 1, false, false), inside, l.depth + 1);
    FeedConcat(l, "{", inside);
    FeedConcat(l, "{" + inside, "}");
    assert Feed(up, "}") == l;
    forall k | 0 < k < |text| ensures Feed(l, text[..k]).depth >= l.depth + 1 {
      assert text[..k] == "{" + inside[..k - 1];
      FeedConcat(l, "{", inside[..k - 1]);
    }
    forall k | 0 <= k <= |text| ensures Feed(l, text[..k]).depth >= l.depth {
      assert k == |text| ==> text[..k] == text;
    }
  }

  /** The scan finds the closing brace of every JSON object, wherever the object stands and
      whatever follows it. */
  lemma ObjectCloses(v: Json, pre: string, post: string, r: int)
    requires v.Object? && Wf(v)
    requires IsMatch(pre + Text(v) + post, |pre|, r)
    ensures r == |pre| + |Text(v)| - 1
  {
    var s, text, start := pre + Text(v) + post, Text(v), |pre|;
    ObjectDepths(v);
    assert s[start] == '{';
    ClosesAtEnd(s, start, text);
  }

  lemma ObjectDepths(v: Json)
    requires v.Object? && Wf(v)
    ensures |Text(v)| >= 2 && Text(v)[0] == '{'
    ensures Feed(OUTSIDE, Text(v)) == OUTSIDE
    ensures forall k :: 0 < k < |Text(v)| ==> Feed(OUTSIDE, Text(v)[..k]).depth >= 1
  {
    InsideIsNeutral(v.pad, v.members);
    assert Text(v) == "{" + (v.pad + MembersText(v.members)) + "}";
    Braced(OUTSIDE, v.pad + MembersText(v.members), Text(v));
    assert Text(v)[..|Text(v)|] == Text(v);
  }

  lemma ClosesAtEnd(s: string, start: nat, text: string)
    requires start + |text| <= |s| && s[start..start + |text|] == text && |text| >= 2
    requires Feed(OUTSIDE, text) == OUTSIDE
    requires forall k :: 0 < k < |text| ==> Feed(OUTSIDE, text[..k]).depth >= 1
    ensures ClosedBy(s, start, start + |text| - 1)
    ensures forall p :: p < start + |text| - 1 ==> !ClosedBy(s, start, p)
  {
    var end := start + |text| - 1;
    assert s[start..end + 1] == text;
    OpenInside(s, start, text);
    OpenUntil(s, start, end);
    ZeroCloses(s, start, end);
  }

  lemma OpenInside(s: string, start: nat, text: string)
    requires start + |text| <= |s| && s[start..start + |text|] == text
    requires forall k :: 0 < k < |text| ==> Feed(OUTSIDE, text[..k]).depth >= 1
    ensures forall p :: start <= p < start + |text| - 1 ==> DepthAt(s, start, p) >= 1
  {
    forall p | start <= p < start + |text| - 1 ensures DepthAt(s, start, p) >= 1 {
      DepthInText(s, start, text, p);
    }
  }

  lemma DepthInText(s: string, start: nat, text: string, p: nat)
    requires start <= p < start + |text| <= |s| && s[start..start + |text|] == text
    ensures DepthAt(s, start, p) == Feed(OUTSIDE, text[..p + 1 - start]).depth
  {
    assert s[start..p + 1] == text[..p + 1 - start];
  }

  /** A -1 means that no JSON object, with any whitespace and nesting, starts at the brace. */
  lemma NoMatchMeansNoObject(s: string, start: nat, v: Json)
    requires start < |s| && IsMatch(s, start, -1) && v.Object? && Wf(v)
    ensures !(Text(v) <= s[start..])
  {
    if Text(v) <= s[start..] {
      var pre, post := s[..start], s[start + |Text(v)|..];
      assert s == pre + Text(v) + post;
      ObjectCloses(v, pre, post, -1);
    }
  }
}
