/** The HTTP-aware strategy of pkg/backoff/http_aware.go: where it looks for a retry delay in the
    output of a command. Regular expressions, strconv and encoding/json are oracles. */
module HttpAware {
  import opened GoNumbers
  import opened Wrappers
  import opened BraceScanner
  import opened JsonText

  const SEARCH_LIMIT: nat := 10 * 1024
  const RETRY_FIELDS: seq<string> :=
    ["retry_after", "retry_after_seconds", "retryAfter", "retryAfterSeconds", "retry_in"]

  /** What encoding/json puts into a map[string]interface{}, as far as the strategy looks. */
  datatype Value = Number(n: real) | Words(s: string) | Other

  type Record = map<string, Value>

  /** Each regular-expression oracle gives the captured digits as an integer, if there are any. */
  datatype Libraries = Libraries(
    decode: string -> Option<Record>,
    atoi: string -> Option<int>,
    retryAfterHeader: string -> Option<int>,
    rateLimitHeader: string -> Option<int>,
    resetHeader: string -> Option<int>)

  function Readable(v: Value, lib: Libraries): Option<int> {
    match v
    case Number(n) => Some(Truncate(n) * SECOND)
    case Words(s) => (match lib.atoi(s) case Some(k) => Some(k * SECOND) case None => None)
    case Other => None
  }

  /** The first of `fields` that is present and readable. */
  function FieldDelay(data: Record, fields: seq<string>, lib: Libraries): Option<int> {
    if fields == [] then None
    else if fields[0] in data && Readable(data[fields[0]], lib).Some? then Readable(data[fields[0]], lib)
    else FieldDelay(data, fields[1..], lib)
  }

  /** The delay a value stands for: whole seconds, or a text of digits. */
  ghost predicate Reads(v: Value, d: int, lib: Libraries) {
    match v
    case Number(n) => exists k :: WholePart(n, k) && d == k * SECOND
    case Words(s) => exists k :: lib.atoi(s) == Some(k) && d == k * SECOND
    case Other => false
  }

  lemma ReadableReads(v: Value, d: int, lib: Libraries)
    ensures Readable(v, lib) == Some(d) <==> Reads(v, d, lib)
  {
    if v.Number? {
      TruncateIsWholePart(v.n, Truncate(v.n));
      forall k | WholePart(v.n, k) ensures Truncate(v.n) == k { TruncateIsWholePart(v.n, k); }
    }
  }

  /** `d` is what the first readable of the fields says. */
  ghost predicate RetryDelay(data: Record, fields: seq<string>, d: int, lib: Libraries) {
    exists i :: 0 <= i < |fields| && fields[i] in data && Reads(data[fields[i]], d, lib)
                && forall j, d' :: 0 <= j < i && fields[j] in data ==> !Reads(data[fields[j]], d', lib)
  }

  lemma {:induction false} FieldDelayIsFirst(data: Record, fields: seq<string>, d: int, lib: Libraries)
    ensures FieldDelay(data, fields, lib) == Some(d) <==> RetryDelay(data, fields, d, lib)
  {
    if fields != [] {
      var rest := fields[1..];
      FieldDelayIsFirst(data, rest, d, lib);
      if fields[0] in data && Readable(data[fields[0]], lib).Some? {
        FirstFieldDecides(data, fields, d, lib);
      } else {
        forall d' | fields[0] in data ensures !Reads(data[fields[0]], d', lib) {
          ReadableReads(data[fields[0]], d', lib);
        }
        LaterFieldDecides(data, fields, d, lib);
      }
    }
  }

  lemma FirstFieldDecides(data: Record, fields: seq<string>, d: int, lib: Libraries)
    requires fields != [] && fields[0] in data && Readable(data[fields[0]], lib).Some?
    ensures RetryDelay(data, fields, d, lib) <==> Readable(data[fields[0]], lib) == Some(d)
  {
    ReadableReads(data[fields[0]], d, lib);
    ReadableReads(data[fields[0]], Readable(data[fields[0]], lib).value, lib);
  }

  lemma LaterFieldDecides(data: Record, fields: seq<string>, d: int, lib: Libraries)
    requires fields != [] && forall d' :: fields[0] in data ==> !Reads(data[fields[0]], d', lib)
    ensures RetryDelay(data, fields, d, lib) <==> RetryDelay(data, fields[1..], d, lib)
  {
    var rest := fields[1..];
    if RetryDelay(data, fields, d, lib) {
      var i :| 0 <= i < |fields| && fields[i] in data && Reads(data[fields[i]], d, lib)
               && forall j, d' :: 0 <= j < i && fields[j] in data ==> !Reads(data[fields[j]], d', lib);
      assert rest[i - 1] == fields[i];
    }
    if RetryDelay(data, rest, d, lib) {
      var i :| 0 <= i < |rest| && rest[i] in data && Reads(data[rest[i]], d, lib)
               && forall j, d' :: 0 <= j < i && rest[j] in data ==> !Reads(data[rest[j]], d', lib);
      assert fields[i + 1] == rest[i];
      forall j, d' | 0 <= j < i + 1 && fields[j] in data ensures !Reads(data[fields[j]], d', lib) {
        if j > 0 { assert rest[j - 1] == fields[j]; }
      }
    }
  }

  // ---- the search over the output ----

  ghost function FirstClosed(s: string, start: nat, from: nat): (r: int)
    requires from <= |s| && forall p :: p < from ==> !ClosedBy(s, start, p)
    ensures r == -1 ==> forall p :: !ClosedBy(s, start, p)
    ensures r != -1 ==> from <= r && ClosedBy(s, start, r) && forall p :: p < r ==> !ClosedBy(s, start, p)
    decreases |s| - from
  {
    if from == |s| then -1
    else if ClosedBy(s, start, from) then from
    else FirstClosed(s, start, from + 1)
  }

  ghost function MatchOf(s: string, start: nat): (r: int)
    ensures r == -1 || start <= r < |s|
  {
    if start >= |s| || s[start] != '{' then -1 else FirstClosed(s, start, 0)
  }

  lemma MatchIsUnique(s: string, start: nat, r: int)
    ensures IsMatch(s, start, r) <==> r == MatchOf(s, start)
  {
  }

  method MatchingBrace(s: string, start: nat) returns (r: int)
    ensures r == MatchOf(s, start)
  {
    r := FindMatchingBrace(s, start);
    MatchIsUnique(s, start, r);
  }

  /** strings.Index for one brace, from `start` on. */
  function NextBrace(s: string, start: nat): (j: nat)
    requires start <= |s|
    ensures start <= j <= |s|
    ensures j < |s| ==> s[j] == '{'
    ensures forall k :: start <= k < j ==> s[k] != '{'
    decreases |s| - start
  {
    if start == |s| || s[start] == '{' then start else NextBrace(s, start + 1)
  }

  /** The decodable objects the search meets, in order, if no field ever stops it. */
  ghost function Visited(s: string, start: nat, lib: Libraries): seq<string>
    requires start <= |s|
    decreases |s| - start, 1
  {
    VisitedAt(s, NextBrace(s, start), lib)
  }

  /** From the brace at `j` on; none is left when `j` is the end. */
  ghost function VisitedAt(s: string, j: nat, lib: Libraries): seq<string>
    requires j <= |s|
    decreases |s| - j, 0
  {
    if j == |s| then []
    else
      var e := MatchOf(s, j);
      if e == -1 || lib.decode(s[j..e + 1]).None? then Visited(s, j + 1, lib)
      else [s[j..e + 1]] + Visited(s, e + 1, lib)
  }

  /** The delay of the first text that decodes to a record with a readable field; 0 if none does. */
  ghost function FirstDelay(texts: seq<string>, lib: Libraries): int {
    if texts == [] then 0
    else
      match lib.decode(texts[0])
      case None => FirstDelay(texts[1..], lib)
      case Some(data) =>
        match FieldDelay(data, RETRY_FIELDS, lib)
        case Some(d) => d
        case None => FirstDelay(texts[1..], lib)
  }

  function Clip(s: string): string {
    if |s| > SEARCH_LIMIT then s[..SEARCH_LIMIT] else s
  }

  ghost function DelayFrom(s: string, start: nat, lib: Libraries): int
    requires start <= |s|
  {
    FirstDelay(Visited(s, start, lib), lib)
  }

  method ReadFields(data: Record, lib: Libraries) returns (delay: Option<int>)
    ensures delay == FieldDelay(data, RETRY_FIELDS, lib)
    ensures forall d :: delay == Some(d) <==> RetryDelay(data, RETRY_FIELDS, d, lib)
  {
    forall d ensures FieldDelay(data, RETRY_FIELDS, lib) == Some(d) <==> RetryDelay(data, RETRY_FIELDS, d, lib) {
      FieldDelayIsFirst(data, RETRY_FIELDS, d, lib);
    }
    for i := 0 to |RETRY_FIELDS|
      invariant FieldDelay(data, RETRY_FIELDS, lib) == FieldDelay(data, RETRY_FIELDS[i..], lib)
    {
      var field := RETRY_FIELDS[i];
      if field in data {
        var v := Readable(data[field], lib);
        if v.Some? {
          return v;
        }
      }
    }
    return None;
  }

  /** What the search does at one opening brace: the delay if it ends there, else where it goes on. */
  method TryBrace(output: string, jsonStart: nat, lib: Libraries) returns (found: Option<int>, next: nat)
    requires jsonStart < |output|
    ensures found.None? ==> jsonStart < next <= |output|
    ensures FirstDelay(VisitedAt(output, jsonStart, lib), lib)
         == if found.Some? then found.value else DelayFrom(output, next, lib)
  {
    next := jsonStart + 1;
    var jsonEnd := MatchingBrace(output, jsonStart);
    if jsonEnd == -1 {
      return None, next;
    }
    var data := lib.decode(output[jsonStart..jsonEnd + 1]);
    if data.None? {
      return None, next;
    }
    found := ReadFields(data.value, lib);
    next := jsonEnd + 1;
    FirstDelayCons(output[jsonStart..jsonEnd + 1], Visited(output, next, lib), lib);
  }

  lemma FirstDelayCons(text: string, rest: seq<string>, lib: Libraries)
    requires lib.decode(text).Some?
    ensures var d := FieldDelay(lib.decode(text).value, RETRY_FIELDS, lib);
      FirstDelay([text] + rest, lib) == if d.Some? then d.value else FirstDelay(rest, lib)
  {
    assert ([text] + rest)[1..] == rest;
  }

  method ParseJsonResponse(text: string, lib: Libraries) returns (delay: int)
    ensures delay == FirstDelay(Visited(Clip(text), 0, lib), lib)
    ensures IsAnswer(Clip(text), 0, delay, lib)
  {
    var output := Clip(text);
    SearchAnswers(output, lib);
    var start := 0;
    while true
      invariant start <= |output|
      invariant DelayFrom(output, 0, lib) == DelayFrom(output, start, lib)
      decreases |output| - start
    {
      var jsonStart := NextBrace(output, start);
      if jsonStart == |output| {
        assert VisitedAt(output, jsonStart, lib) == [];
        return 0;
      }
      var found, next := TryBrace(output, jsonStart, lib);
      if found.Some? {
        return found.value;
      }
      start := next;
    }
  }

  // ---- which objects the search finds, in any text ----

  /** A brace, its match, and between them something that decodes. */
  ghost predicate ObjectAt(s: string, j: int, e: int, lib: Libraries) {
    0 <= j <= e < |s| && s[j] == '{' && IsMatch(s, j, e) && lib.decode(s[j..e + 1]).Some?
  }

  /** An object at `j` that lies in no earlier such object. Braces without a match or around text that
      does not decode hide nothing. */
  ghost predicate Outermost(s: string, j: nat, lib: Libraries)
    decreases j
  {
    && (exists e :: ObjectAt(s, j, e, lib))
    && forall i: nat, e {:trigger ObjectAt(s, i, e, lib)} ::
         i < j && ObjectAt(s, i, e, lib) && Outermost(s, i, lib) ==> e < j
  }

  /** The object at `j` has a readable retry field that says `d`. */
  ghost predicate Offers(s: string, j: nat, d: int, lib: Libraries) {
    exists e :: ObjectAt(s, j, e, lib) && RetryDelay(lib.decode(s[j..e + 1]).value, RETRY_FIELDS, d, lib)
  }

  /** `delay` is offered by the first outermost object from `start` on that offers any; 0 if none does. */
  ghost predicate IsAnswer(s: string, start: nat, delay: int, lib: Libraries) {
    || SomeOffer(s, start, delay, lib)
    || (delay == 0 && forall j: nat, d :: start <= j && Outermost(s, j, lib) ==> !Offers(s, j, d, lib))
  }

  ghost predicate SomeOffer(s: string, start: nat, delay: int, lib: Libraries) {
    exists j: nat :: start <= j && FirstOffer(s, start, j, delay, lib)
  }

  ghost predicate FirstOffer(s: string, start: nat, j: nat, delay: int, lib: Libraries) {
    && Outermost(s, j, lib) && Offers(s, j, delay, lib)
    && forall i: nat, d :: start <= i < j && Outermost(s, i, lib) ==> !Offers(s, i, d, lib)
  }

  /** The texts of the outermost objects from `j` on. */
  ghost function OutermostTexts(s: string, j: nat, lib: Libraries): seq<string>
    requires j <= |s|
    decreases |s| - j
  {
    if j == |s| then []
    else
      (if Outermost(s, j, lib) then [s[j..MatchOf(s, j) + 1]] else []) + OutermostTexts(s, j + 1, lib)
  }

  lemma ObjectEnd(s: string, j: nat, e: int, lib: Libraries)
    requires ObjectAt(s, j, e, lib)
    ensures e == MatchOf(s, j)
  {
    MatchIsUnique(s, j, e);
  }

  /** Every outermost object before `start` ends before it. */
  ghost predicate Passed(s: string, start: nat, lib: Libraries) {
    forall i: nat, e {:trigger ObjectAt(s, i, e, lib)} ::
      i < start && ObjectAt(s, i, e, lib) && Outermost(s, i, lib) ==> e < start
  }

  lemma NoneHere(s: string, j: nat, lib: Libraries)
    requires j < |s| && !Outermost(s, j, lib)
    ensures OutermostTexts(s, j, lib) == OutermostTexts(s, j + 1, lib)
  {
  }

  lemma OneHere(s: string, j: nat, lib: Libraries)
    requires j < |s| && Outermost(s, j, lib)
    ensures OutermostTexts(s, j, lib) == [s[j..MatchOf(s, j) + 1]] + OutermostTexts(s, j + 1, lib)
  {
  }

  /** The search visits exactly the outermost objects, in order. */
  lemma {:induction false} VisitsTheOutermost(s: string, start: nat, lib: Libraries)
    requires start <= |s| && Passed(s, start, lib)
    ensures Visited(s, start, lib) == OutermostTexts(s, start, lib)
    decreases |s| - start
  {
    var j := NextBrace(s, start);
    PassToBrace(s, start, j, lib);
    if j < |s| {
      var e := MatchOf(s, j);
      if e == -1 || lib.decode(s[j..e + 1]).None? {
        PassBrace(s, j, lib);
        VisitsTheOutermost(s, j + 1, lib);
      } else {
        PassObject(s, j, lib);
        VisitsTheOutermost(s, e + 1, lib);
      }
    }
  }

  lemma {:induction false} PassToBrace(s: string, start: nat, j: nat, lib: Libraries)
    requires start <= j <= |s| && Passed(s, start, lib) && forall k :: start <= k < j ==> s[k] != '{'
    ensures OutermostTexts(s, start, lib) == OutermostTexts(s, j, lib) && Passed(s, j, lib)
    decreases j - start
  {
    if start < j {
      NotOutermost(s, start, lib);
      PassToBrace(s, start + 1, j, lib);
    }
  }

  lemma NotOutermost(s: string, j: nat, lib: Libraries)
    requires j < |s| && Passed(s, j, lib) && forall e :: !ObjectAt(s, j, e, lib)
    ensures OutermostTexts(s, j, lib) == OutermostTexts(s, j + 1, lib) && Passed(s, j + 1, lib)
  {
    assert !Outermost(s, j, lib);
    NoneHere(s, j, lib);
  }

  /** A brace without a match or with undecodable text: the search goes on just behind it. */
  lemma PassBrace(s: string, j: nat, lib: Libraries)
    requires j < |s| && Passed(s, j, lib)
    requires MatchOf(s, j) == -1 || lib.decode(s[j..MatchOf(s, j) + 1]).None?
    ensures OutermostTexts(s, j, lib) == OutermostTexts(s, j + 1, lib) && Passed(s, j + 1, lib)
  {
    forall e ensures !ObjectAt(s, j, e, lib) {
      if ObjectAt(s, j, e, lib) { ObjectEnd(s, j, e, lib); }
    }
    NotOutermost(s, j, lib);
  }

  /** An object: the search takes it and goes on behind it. */
  lemma PassObject(s: string, j: nat, lib: Libraries)
    requires j < |s| && Passed(s, j, lib) && s[j] == '{'
    requires MatchOf(s, j) != -1 && lib.decode(s[j..MatchOf(s, j) + 1]).Some?
    ensures var e := MatchOf(s, j);
      OutermostTexts(s, j, lib) == [s[j..e + 1]] + OutermostTexts(s, e + 1, lib) && Passed(s, e + 1, lib)
  {
    var e := MatchOf(s, j);
    MatchIsUnique(s, j, e);
    assert ObjectAt(s, j, e, lib);
    OneHere(s, j, lib);
    NoneInside(s, j, e, j + 1, lib);
    BehindObject(s, j, e, lib);
  }

  lemma BehindObject(s: string, j: nat, e: int, lib: Libraries)
    requires Passed(s, j, lib) && Outermost(s, j, lib) && ObjectAt(s, j, e, lib)
    ensures Passed(s, e + 1, lib)
  {
    forall i: nat, e' | i < e + 1 && ObjectAt(s, i, e', lib) && Outermost(s, i, lib) ensures e' < e + 1 {
      if i == j { ObjectEnd(s, j, e', lib); }
    }
  }

  lemma {:induction false} NoneInside(s: string, j: nat, e: int, k: nat, lib: Libraries)
    requires Outermost(s, j, lib) && ObjectAt(s, j, e, lib) && j < k <= e + 1
    ensures OutermostTexts(s, k, lib) == OutermostTexts(s, e + 1, lib)
    decreases e - k
  {
    if k <= e {
      InsideIsHidden(s, j, e, k, lib);
      NoneHere(s, k, lib);
      NoneInside(s, j, e, k + 1, lib);
    }
  }

  lemma InsideIsHidden(s: string, j: nat, e: int, k: nat, lib: Libraries)
    requires Outermost(s, j, lib) && ObjectAt(s, j, e, lib) && j < k <= e
    ensures !Outermost(s, k, lib)
  {
  }

  /** So its delay is that of the first outermost object with a readable retry field. */
  lemma SearchAnswers(s: string, lib: Libraries)
    ensures IsAnswer(s, 0, FirstDelay(Visited(s, 0, lib), lib), lib)
  {
    VisitsTheOutermost(s, 0, lib);
    OutermostAnswer(s, 0, lib);
  }

  lemma {:induction false} OutermostAnswer(s: string, j: nat, lib: Libraries)
    requires j <= |s|
    ensures IsAnswer(s, j, FirstDelay(OutermostTexts(s, j, lib), lib), lib)
    decreases |s| - j
  {
    if j < |s| {
      OutermostAnswer(s, j + 1, lib);
      if Outermost(s, j, lib) {
        OutermostOffers(s, j, lib);
        OneHere(s, j, lib);
        FirstDelayCons(s[j..MatchOf(s, j) + 1], OutermostTexts(s, j + 1, lib), lib);
      } else {
        NoneHere(s, j, lib);
      }
      AnswerOneEarlier(s, j, FirstDelay(OutermostTexts(s, j + 1, lib), lib), lib);
    }
  }

  /** What the object at `j` offers. */
  lemma OutermostOffers(s: string, j: nat, lib: Libraries)
    requires j < |s| && Outermost(s, j, lib)
    ensures var e := MatchOf(s, j);
      j <= e && ObjectAt(s, j, e, lib)
      && forall d :: Offers(s, j, d, lib) <==> FieldDelay(lib.decode(s[j..e + 1]).value, RETRY_FIELDS, lib) == Some(d)
  {
    var e :| ObjectAt(s, j, e, lib);
    ObjectEnd(s, j, e, lib);
    forall d ensures Offers(s, j, d, lib) <==> FieldDelay(lib.decode(s[j..e + 1]).value, RETRY_FIELDS, lib) == Some(d) {
      FieldDelayIsFirst(lib.decode(s[j..e + 1]).value, RETRY_FIELDS, d, lib);
      if Offers(s, j, d, lib) {
        var e' :| ObjectAt(s, j, e', lib) && RetryDelay(lib.decode(s[j..e' + 1]).value, RETRY_FIELDS, d, lib);
        ObjectEnd(s, j, e', lib);
      }
    }
  }

  lemma AnswerOneEarlier(s: string, j: nat, delay: int, lib: Libraries)
    requires j < |s| && IsAnswer(s, j + 1, delay, lib)
    ensures (forall d :: Outermost(s, j, lib) ==> !Offers(s, j, d, lib)) ==> IsAnswer(s, j, delay, lib)
    ensures forall d :: Outermost(s, j, lib) && Offers(s, j, d, lib) ==> IsAnswer(s, j, d, lib)
  {
    forall d | Outermost(s, j, lib) && Offers(s, j, d, lib) ensures IsAnswer(s, j, d, lib) {
      assert FirstOffer(s, j, j, d, lib);
    }
    if forall d :: Outermost(s, j, lib) ==> !Offers(s, j, d, lib) {
      if SomeOffer(s, j + 1, delay, lib) {
        var k: nat :| j + 1 <= k && FirstOffer(s, j + 1, k, delay, lib);
        assert FirstOffer(s, j, k, delay, lib);
      }
    }
  }

  /** There is one answer. */
  lemma AnswerIsUnique(s: string, start: nat, d: int, d': int, lib: Libraries)
    requires IsAnswer(s, start, d, lib) && IsAnswer(s, start, d', lib)
    ensures d == d'
  {
    if SomeOffer(s, start, d, lib) && SomeOffer(s, start, d', lib) {
      var j: nat :| start <= j && FirstOffer(s, start, j, d, lib);
      var k: nat :| start <= k && FirstOffer(s, start, k, d', lib);
      OutermostOffers(s, j, lib);
    }
  }

  // ---- objects between brace-free text ----

  ghost predicate NoBrace(s: string) { forall k :: 0 <= k < |s| ==> s[k] != '{' }

  /** gap, object, gap, object, ..., gap */
  function Weave(gaps: seq<string>, objects: seq<Json>): string
    requires |gaps| == |objects| + 1
  {
    if objects == [] then gaps[0] else gaps[0] + (Text(objects[0]) + Weave(gaps[1..], objects[1..]))
  }

  function Texts(objects: seq<Json>): (r: seq<string>)
    ensures |r| == |objects| && forall k :: 0 <= k < |r| ==> r[k] == Text(objects[k])
  {
    seq(|objects|, k requires 0 <= k < |objects| => Text(objects[k]))
  }

  ghost predicate Decodable(objects: seq<Json>, lib: Libraries) {
    forall k :: 0 <= k < |objects| ==> objects[k].Object? && Wf(objects[k]) && lib.decode(Text(objects[k])).Some?
  }

  lemma {:induction false} VisitsExactlyTheObjects(pre: string, gaps: seq<string>, objects: seq<Json>, lib: Libraries)
    requires |gaps| == |objects| + 1 && Decodable(objects, lib)
    requires forall k :: 0 <= k < |gaps| ==> NoBrace(gaps[k])
    ensures Visited(pre + Weave(gaps, objects), |pre|, lib) == Texts(objects)
    decreases |objects|
  {
    if objects == [] {
      SkipGap(pre + gaps[0], |pre|, |gaps[0]|);
    } else {
      var text, rest := Text(objects[0]), Weave(gaps[1..], objects[1..]);
      VisitsExactlyTheObjects(pre + gaps[0] + text, gaps[1..], objects[1..], lib);
      VisitsGapAndObject(pre, gaps[0], objects[0], rest, Texts(objects[1..]), lib);
      assert Texts(objects) == [text] + Texts(objects[1..]);
    }
  }

  lemma VisitsGapAndObject(pre: string, gap: string, v: Json, rest: string, tail: seq<string>, lib: Libraries)
    requires v.Object? && Wf(v) && lib.decode(Text(v)).Some? && NoBrace(gap)
    requires Visited(pre + gap + Text(v) + rest, |pre + gap + Text(v)|, lib) == tail
    ensures Visited(pre + (gap + (Text(v) + rest)), |pre|, lib) == [Text(v)] + tail
  {
    var s := pre + gap + Text(v) + rest;
    assert s == pre + (gap + (Text(v) + rest));
    assert (pre + gap)[|pre|..] == gap;
    VisitsObject(s, |pre|, pre + gap, v, rest, lib);
  }

  lemma VisitsObject(s: string, start: nat, before: string, v: Json, rest: string, lib: Libraries)
    requires s == before + Text(v) + rest && v.Object? && Wf(v) && lib.decode(Text(v)).Some?
    requires start <= |before| && NoBrace(before[start..])
    ensures Visited(s, start, lib) == [Text(v)] + Visited(s, |before + Text(v)|, lib)
  {
    TextOpens(v);
    MatchIsUnique(s, |before|, MatchOf(s, |before|));
    ObjectCloses(v, before, rest, MatchOf(s, |before|));
    VisitsText(s, start, before, Text(v), rest, lib);
  }

  lemma VisitsText(s: string, start: nat, before: string, text: string, rest: string, lib: Libraries)
    requires s == before + text + rest && text != [] && text[0] == '{' && lib.decode(text).Some?
    requires start <= |before| && NoBrace(before[start..])
    requires MatchOf(s, |before|) == |before| + |text| - 1
    ensures Visited(s, start, lib) == [text] + Visited(s, |before + text|, lib)
  {
    assert s[|before|] == '{';
    forall k | start <= k < |before| ensures s[k] != '{' {
      assert s[k] == before[start..][k - start];
    }
    SkipGap(s, start, |before| - start);
    assert s[|before|..|before| + |text|] == text;
    VisitTaken(s, start, |before|, text, |before + text|, lib);
  }

  lemma VisitTaken(s: string, start: nat, j: nat, text: string, next: nat, lib: Libraries)
    requires start <= |s| && NextBrace(s, start) == j < next <= |s| && s[j..next] == text
    requires MatchOf(s, j) == next - 1 && lib.decode(text).Some?
    ensures Visited(s, start, lib) == [text] + Visited(s, next, lib)
  {
  }

  lemma TextOpens(v: Json)
    requires v.Object?
    ensures |Text(v)| >= 2 && Text(v)[0] == '{'
  {
  }

  lemma {:induction false} SkipGap(s: string, start: nat, n: nat)
    requires start + n <= |s| && forall k :: start <= k < start + n ==> s[k] != '{'
    ensures NextBrace(s, start) == NextBrace(s, start + n)
    decreases n
  {
    if n > 0 { SkipGap(s, start + 1, n - 1); }
  }

  /** On such an output the search reads exactly its objects, in order, and takes the delay of
      the first one with a readable retry field. */
  lemma DelayOfWovenOutput(gaps: seq<string>, objects: seq<Json>, lib: Libraries)
    requires |gaps| == |objects| + 1 && Decodable(objects, lib)
    requires forall k :: 0 <= k < |gaps| ==> NoBrace(gaps[k])
    requires |Weave(gaps, objects)| <= SEARCH_LIMIT
    ensures Visited(Clip(Weave(gaps, objects)), 0, lib) == Texts(objects)
    ensures forall k :: FirstReadable(objects, k, lib) ==>
      FirstDelay(Visited(Clip(Weave(gaps, objects)), 0, lib), lib) == ObjectDelay(objects[k], lib).value
    ensures (forall k :: 0 <= k < |objects| ==> ObjectDelay(objects[k], lib).None?) ==>
      FirstDelay(Visited(Clip(Weave(gaps, objects)), 0, lib), lib) == 0
  {
    VisitsExactlyTheObjects("", gaps, objects, lib);
    assert "" + Weave(gaps, objects) == Weave(gaps, objects);
    forall k | FirstReadable(objects, k, lib)
      ensures FirstDelay(Texts(objects), lib) == ObjectDelay(objects[k], lib).value
    {
      FirstReadableWins(objects, k, lib);
    }
    if forall k :: 0 <= k < |objects| ==> ObjectDelay(objects[k], lib).None? {
      NoneReadable(objects, lib);
    }
  }

  ghost function ObjectDelay(v: Json, lib: Libraries): Option<int>
    requires lib.decode(Text(v)).Some?
  {
    FieldDelay(lib.decode(Text(v)).value, RETRY_FIELDS, lib)
  }

  ghost predicate FirstReadable(objects: seq<Json>, k: int, lib: Libraries)
    requires Decodable(objects, lib)
  {
    0 <= k < |objects| && ObjectDelay(objects[k], lib).Some?
    && forall j :: 0 <= j < k ==> ObjectDelay(objects[j], lib).None?
  }

  lemma {:induction false} FirstReadableWins(objects: seq<Json>, k: nat, lib: Libraries)
    requires Decodable(objects, lib) && FirstReadable(objects, k, lib)
    ensures FirstDelay(Texts(objects), lib) == ObjectDelay(objects[k], lib).value
    decreases k
  {
    if k > 0 {
      assert objects[0] == objects[..1][0] && Texts(objects)[1..] == Texts(objects[1..]);
      assert ObjectDelay(objects[0], lib).None?;
      FirstReadableWins(objects[1..], k - 1, lib);
    }
  }

  lemma {:induction false} NoneReadable(objects: seq<Json>, lib: Libraries)
    requires Decodable(objects, lib) && forall k :: 0 <= k < |objects| ==> ObjectDelay(objects[k], lib).None?
    ensures FirstDelay(Texts(objects), lib) == 0
  {
    if objects != [] {
      assert Texts(objects)[1..] == Texts(objects[1..]);
      assert ObjectDelay(objects[0], lib).None?;
      NoneReadable(objects[1..], lib);
    }
  }

  // ---- the strategy object ----

  function RetryAfterDelay(output: string, lib: Libraries): int {
    match lib.retryAfterHeader(output) case Some(k) => k * SECOND case None => 0
  }

  /** A retry-after rate-limit header answers even when it says zero; the reset time is a Unix second. */
  function RateLimitDelay(output: string, now: int, lib: Libraries): int {
    match lib.rateLimitHeader(output)
    case Some(k) => k * SECOND
    case None =>
      match lib.resetHeader(output)
      case Some(at) => if at * SECOND - now > 0 then at * SECOND - now else 0
      case None => 0
  }

  function Cap(delay: int, maxRetryAfter: int): int {
    if maxRetryAfter > 0 && delay > maxRetryAfter then maxRetryAfter else delay
  }

  /** What the JSON search makes of a command's output. */
  ghost function JsonDelay(stdout: string, stderr: string, lib: Libraries): int {
    FirstDelay(Visited(Clip(Clip(stdout) + "\n" + Clip(stderr)), 0, lib), lib)
  }

  /** The sources in order of precedence; the first positive delay wins, capped. */
  ghost function Timing(stdout: string, stderr: string, now: int, maxRetryAfter: int, lib: Libraries): int {
    var output := Clip(stdout) + "\n" + Clip(stderr);
    var body := JsonDelay(stdout, stderr, lib);
    if RetryAfterDelay(output, lib) > 0 then Cap(RetryAfterDelay(output, lib), maxRetryAfter)
    else if RateLimitDelay(output, now, lib) > 0 then Cap(RateLimitDelay(output, now, lib), maxRetryAfter)
    else if body > 0 then Cap(body, maxRetryAfter)
    else 0
  }

  class HTTPAware {
    const maxRetryAfter: int
    const lib: Libraries
    var lastRetryAfter: int

    constructor (maxRetryAfter: int, lib: Libraries)
      ensures this.maxRetryAfter == maxRetryAfter && this.lib == lib && lastRetryAfter == 0
    {
      this.maxRetryAfter := maxRetryAfter;
      this.lib := lib;
      lastRetryAfter := 0;
    }

    method ProcessCommandOutput(stdout: string, stderr: string, now: int)
      modifies this
      ensures lastRetryAfter == Timing(stdout, stderr, now, maxRetryAfter, lib)
      ensures IsTiming(lastRetryAfter, stdout, stderr, now, maxRetryAfter, lib)
    {
      TimingIsTheFirstSource(stdout, stderr, now, maxRetryAfter, lib);
      lastRetryAfter := 0;
      var output := Clip(stdout) + "\n" + Clip(stderr);
      var delay := RetryAfterDelay(output, lib);
      if delay > 0 {
        lastRetryAfter := Cap(delay, maxRetryAfter);
        return;
      }
      delay := RateLimitDelay(output, now, lib);
      if delay > 0 {
        lastRetryAfter := Cap(delay, maxRetryAfter);
        return;
      }
      delay := ParseJsonResponse(output, lib);
      if delay > 0 {
        lastRetryAfter := Cap(delay, maxRetryAfter);
      }
    }

    function Delay(attempt: int, fallback: int -> int): int
      reads this
    {
      if lastRetryAfter > 0 then lastRetryAfter else fallback(attempt)
    }
  }

  /** `d`, or a positive cap below it. */
  ghost predicate Capped(t: int, d: int, maxRetryAfter: int) {
    t <= d && (maxRetryAfter > 0 ==> t <= maxRetryAfter) && (t == d || (maxRetryAfter > 0 && t == maxRetryAfter))
  }

  /** A positive Retry-After header comes first; then a positive retry-after rate-limit header; then,
      only without such a header, a reset time to come; then the JSON body. */
  ghost predicate IsTiming(t: int, stdout: string, stderr: string, now: int, maxRetryAfter: int, lib: Libraries) {
    var output := Clip(stdout) + "\n" + Clip(stderr);
    var header, limit, reset := lib.retryAfterHeader(output), lib.rateLimitHeader(output), lib.resetHeader(output);
    if header.Some? && header.value > 0 then Capped(t, header.value * SECOND, maxRetryAfter)
    else if limit.Some? && limit.value > 0 then Capped(t, limit.value * SECOND, maxRetryAfter)
    else if limit.None? && reset.Some? && reset.value * SECOND > now then
      Capped(t, reset.value * SECOND - now, maxRetryAfter)
    else
      exists body :: IsAnswer(Clip(output), 0, body, lib) && if body > 0 then Capped(t, body, maxRetryAfter) else t == 0
  }

  lemma TimingIsTheFirstSource(stdout: string, stderr: string, now: int, maxRetryAfter: int, lib: Libraries)
    ensures IsTiming(Timing(stdout, stderr, now, maxRetryAfter, lib), stdout, stderr, now, maxRetryAfter, lib)
  {
    SearchAnswers(Clip(Clip(stdout) + "\n" + Clip(stderr)), lib);
  }

  /** The timing is never negative, is within a set cap, and is positive exactly when one of the
      three sources offers a positive delay; a later source counts only if the earlier ones do not. */
  lemma TimingIsCapped(stdout: string, stderr: string, now: int, maxRetryAfter: int, lib: Libraries)
    ensures var t := Timing(stdout, stderr, now, maxRetryAfter, lib);
      && t >= 0 && (maxRetryAfter > 0 ==> t <= maxRetryAfter)
      && var output := Clip(stdout) + "\n" + Clip(stderr);
         (t > 0 <==> RetryAfterDelay(output, lib) > 0 || RateLimitDelay(output, now, lib) > 0
                     || JsonDelay(stdout, stderr, lib) > 0)
  {
  }

  // ---- how much of standard error is searched ----

  function Head(s: string, n: nat): string { if |s| <= n then s else s[..n] }

  /** The joining newline and standard output come first. */
  function Room(stdout: string): nat {
    if |stdout| < SEARCH_LIMIT - 1 then SEARCH_LIMIT - 1 - |stdout| else 0
  }

  /** Only the first SEARCH_LIMIT - 1 - |stdout| bytes of standard error can matter to the JSON search. */
  lemma OnlyTheHeadOfStderrMatters(stdout: string, stderr: string, other: string, lib: Libraries)
    requires Head(stderr, Room(stdout)) == Head(other, Room(stdout))
    ensures JsonDelay(stdout, stderr, lib) == JsonDelay(stdout, other, lib)
  {
    SearchedText(stdout, stderr);
    SearchedText(stdout, other);
  }

  lemma SearchedText(stdout: string, stderr: string)
    ensures Clip(Clip(stdout) + "\n" + Clip(stderr)) == Clip(Clip(stdout) + "\n" + Head(stderr, Room(stdout)))
  {
    var a, b := Clip(stdout) + "\n" + Clip(stderr), Clip(stdout) + "\n" + Head(stderr, Room(stdout));
    if |stdout| >= SEARCH_LIMIT - 1 {
      assert Clip(a) == Clip(Clip(stdout) + "\n") == Clip(b);
    } else {
      assert forall k :: 0 <= k < |Clip(a)| ==> Clip(a)[k] == Clip(b)[k];
    }
  }

  /** No library finds anything in standard error behind a standard output of this length. */
  ghost predicate StderrIgnored(n: nat) {
    forall stdout, stderr, other, lib :: |stdout| == n ==>
        JsonDelay(stdout, stderr, lib) == JsonDelay(stdout, other, lib)
  }

  lemma StderrIgnoredExactly(n: nat)
    ensures StderrIgnored(n) <==> n >= SEARCH_LIMIT - 1
  {
    if n >= SEARCH_LIMIT - 1 {
      forall stdout: string, stderr: string, other: string, lib | |stdout| == n
        ensures JsonDelay(stdout, stderr, lib) == JsonDelay(stdout, other, lib)
      {
        OnlyTheHeadOfStderrMatters(stdout, stderr, other, lib);
      }
    } else {
      StderrCanMatter(n);
    }
  }

  /** Decodes every text to a record that asks for one second. */
  function OneSecond(): Libraries {
    Libraries(_ => Some(map["retry_after" := Number(1.0)]), _ => None, _ => None, _ => None, _ => None)
  }

  lemma ObjectFound(before: string, pad: string, text: string)
    requires text == before + "{" + pad + "}" && NoBrace(before) && IsSpace(pad) && |text| <= SEARCH_LIMIT
    ensures FirstDelay(Visited(Clip(text), 0, OneSecond()), OneSecond()) == SECOND
  {
    var v := JsonText.Object(pad, NoMember);
    var gaps, objects := [before, ""], [v];
    assert Text(v) == "{" + pad + "" + "}";
    assert Weave(gaps[1..], objects[1..]) == "";
    assert Weave(gaps, objects) == text;
    assert ObjectDelay(v, OneSecond()) == Some(SECOND);
    assert FirstReadable(objects, 0, OneSecond());
    DelayOfWovenOutput(gaps, objects, OneSecond());
  }

  /** At most one brace, never closed. */
  lemma NothingFound(before: string, after: string, text: string)
    requires (text == before + "{" + after || text == before + after) && NoBrace(before)
    requires IsSpace(after) && |text| <= SEARCH_LIMIT
    ensures FirstDelay(Visited(Clip(text), 0, OneSecond()), OneSecond()) == 0
  {
    if NoBrace(text) {
      SkipGap(text, 0, |text|);
    } else {
      var j := |before|;
      assert text[j] == '{';
      SkipGap(text, 0, j);
      NeverClosed(text, j);
      SkipGap(text, j + 1, |text| - j - 1);
      assert Visited(text, j + 1, OneSecond()) == [];
    }
  }

  lemma NeverClosed(text: string, j: nat)
    requires j < |text| && text[j] == '{' && IsSpace(text[j + 1..])
    ensures MatchOf(text, j) == -1
  {
    forall p | j <= p < |text| ensures DepthAt(text, j, p) >= 1 {
      OpenDepth(text[j..p + 1]);
    }
    OpenUntil(text, j, |text|);
    MatchIsUnique(text, j, -1);
  }

  lemma {:induction false} OpenDepth(s: string)
    requires s != [] && s[0] == '{' && IsSpace(s[1..])
    ensures Feed(OUTSIDE, s) == Lex(1, false, false)
  {
    var n := |s| - 1;
    if n == 0 {
      assert Feed(OUTSIDE, s[..0]) == OUTSIDE;
    } else {
      assert s[n] == s[1..][n - 1];
      assert s[..n][1..] == s[1..][..n - 1];
      OpenDepth(s[..n]);
    }
  }

  /** An object opened by the last byte of standard output and closed by the first of standard error;
      behind an empty standard output a whole object. */
  lemma StderrCanMatter(n: nat)
    requires n < SEARCH_LIMIT - 1
    ensures !StderrIgnored(n)
  {
    var lib := OneSecond();
    if n == 0 {
      BehindNothing();
      assert JsonDelay("", "{}", lib) != JsonDelay("", "", lib);
    } else {
      var blank := seq(n - 1, _ => ' ');
      BehindOpenBrace(blank);
      assert JsonDelay(blank + "{", "}", lib) != JsonDelay(blank + "{", "", lib);
    }
  }

  lemma BehindNothing()
    ensures JsonDelay("", "{}", OneSecond()) == SECOND && JsonDelay("", "", OneSecond()) == 0
  {
    ObjectFound("\n", "", "\n{}");
    NothingFound("", "\n", "\n");
    assert Clip("") + "\n" + Clip("{}") == "\n{}" && Clip("") + "\n" + Clip("") == "\n";
  }

  lemma BehindOpenBrace(blank: string)
    requires NoBrace(blank) && |blank| + 2 < SEARCH_LIMIT
    ensures JsonDelay(blank + "{", "}", OneSecond()) == SECOND && JsonDelay(blank + "{", "", OneSecond()) == 0
  {
    var stdout := blank + "{";
    assert Clip(stdout) + "\n" + Clip("}") == blank + "{" + "\n" + "}";
    assert Clip(stdout) + "\n" + Clip("") == blank + "{" + "\n";
    ObjectFound(blank, "\n", blank + "{" + "\n" + "}");
    NothingFound(blank, "\n", blank + "{" + "\n");
  }
}
