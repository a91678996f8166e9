/** The JSON path matcher of pkg/patterns/json_matcher.go on parsed path parts. */
module JsonMatcher {
  import opened Wrappers

  datatype Json =
    | Null
    | Bool(b: bool)
    | Number(n: real)
    | Text(s: string)
    | Array(items: seq<Json>)
    | Object(fields: map<string, Json>)

  /** name, name[index], name[*]; an empty array name indexes the current value. */
  datatype Part = Field(name: string) | At(list: string, index: int) | Each(list: string)

  datatype Scalar = IntValue(i: int) | FloatValue(r: real) | TextValue(s: string) | BoolValue(b: bool) | NullValue

  datatype Operator = Equal | NotEqual | Greater | Less | GreaterOrEqual | LessOrEqual | RegexMatch

  function NavigateToField(data: Json, field: string): Option<Json> {
    if data.Object? && field in data.fields then Some(data.fields[field]) else None
  }

  /** The array a bracketed part talks about. */
  function ArrayAt(v: Json, list: string): Option<seq<Json>> {
    var target := if list == "" then Some(v) else NavigateToField(v, list);
    if target.Some? && target.value.Array? then Some(target.value.items) else None
  }

  function Extract(v: Json, parts: seq<Part>): Option<Json>
    decreases |parts|, 0
  {
    if parts == [] then Some(v)
    else
      match parts[0]
      case Field(name) =>
        (match NavigateToField(v, name) case None => None case Some(w) => Extract(w, parts[1..]))
      case At(list, index) =>
        (match ArrayAt(v, list)
         case None => None
         case Some(arr) => if 0 <= index < |arr| then Extract(arr[index], parts[1..]) else None)
      case Each(list) =>
        match ArrayAt(v, list)
        case None => None
        case Some(arr) =>
          if |parts| == 1 then Some(Array(arr))
          else
            var results := ExtractEach(arr, parts[1..]);
            if results != [] then Some(Array(results)) else None
  }

  /** What the remaining path finds in each element that has it. */
  function ExtractEach(arr: seq<Json>, parts: seq<Part>): seq<Json>
    decreases |parts|, 1 + |arr|
  {
    if arr == [] then []
    else
      var n := |arr| - 1;
      ExtractEach(arr[..n], parts)
      + (match Extract(arr[n], parts) case Some(w) => [w] case None => [])
  }

  method ExtractValueRecursive(v: Json, parts: seq<Part>) returns (r: Option<Json>)
    ensures r == Extract(v, parts)
    decreases |parts|
  {
    if parts == [] {
      return Some(v);
    }
    var part, remaining := parts[0], parts[1..];
    if part.Field? {
      var w := NavigateToField(v, part.name);
      if w.None? {
        return None;
      }
      r := ExtractValueRecursive(w.value, remaining);
      return;
    }
    var target := Some(v);
    if part.list != "" {
      target := NavigateToField(v, part.list);
      if target.None? {
        return None;
      }
    }
    if !target.value.Array? {
      return None;
    }
    var arr := target.value.items;
    if part.At? {
      if 0 <= part.index < |arr| {
        r := ExtractValueRecursive(arr[part.index], remaining);
        return;
      }
      return None;
    }
    if remaining == [] {
      return Some(Array(arr));
    }
    var results := [];
    for k := 0 to |arr|
      invariant results == ExtractEach(arr[..k], remaining)
    {
      assert arr[..k + 1][..k] == arr[..k];
      var found := ExtractValueRecursive(arr[k], remaining);
      if found.Some? {
        results := results + [found.value];
      }
    }
    assert arr[..|arr|] == arr;
    return if results != [] then Some(Array(results)) else None;
  }

  function NumberOf(e: Scalar): Option<real> {
    match e
    case IntValue(i) => Some(i as real)
    case FloatValue(r) => Some(r)
    case _ => None
  }

  /** Equality of a value that is not an array with the expected scalar: numbers by value,
      everything else by kind and value. */
  predicate Same(x: Json, e: Scalar) {
    match x
    case Number(n) => NumberOf(e) == Some(n)
    case Text(s) => e == TextValue(s)
    case Bool(b) => e == BoolValue(b)
    case Null => e == NullValue
    case _ => false
  }

  predicate EqualAnywhere(actual: Json, e: Scalar) {
    if actual.Array? then exists k :: 0 <= k < |actual.items| && EqualAnywhere(actual.items[k], e)
    else Same(actual, e)
  }

  method CompareEqual(actual: Json, e: Scalar) returns (r: bool)
    ensures r <==> EqualAnywhere(actual, e)
    decreases actual
  {
    if actual.Array? {
      for k := 0 to |actual.items|
        invariant forall j :: 0 <= j < k ==> !EqualAnywhere(actual.items[j], e)
      {
        var same := CompareEqual(actual.items[k], e);
        if same {
          return true;
        }
      }
      return false;
    }
    return Same(actual, e);
  }

  function CompareNumeric(actual: Json, e: Scalar, op: Operator): bool {
    actual.Number? && NumberOf(e).Some? &&
    match op
    case Greater => actual.n > NumberOf(e).value
    case Less => actual.n < NumberOf(e).value
    case GreaterOrEqual => actual.n >= NumberOf(e).value
    case LessOrEqual => actual.n <= NumberOf(e).value
    case _ => false
  }

  /** `regex` is the compiled expected pattern. */
  predicate Compares(actual: Json, e: Scalar, op: Operator, regex: string -> bool) {
    match op
    case Equal => EqualAnywhere(actual, e)
    case NotEqual => !EqualAnywhere(actual, e)
    case RegexMatch => actual.Text? && regex(actual.s)
    case _ => CompareNumeric(actual, e, op)
  }

  predicate Matches(v: Json, parts: seq<Part>, e: Scalar, op: Operator, regex: string -> bool) {
    Extract(v, parts).Some? && Compares(Extract(v, parts).value, e, op, regex)
  }

  class JSONPatternMatcher {
    const parts: seq<Part>
    const op: Operator
    const expected: Scalar
    const regex: string -> bool
    var totalMatches: nat
    var successes: nat
    var failures: nat
    var errors: nat

    constructor (parts: seq<Part>, op: Operator, expected: Scalar, regex: string -> bool)
      ensures this.parts == parts && this.op == op && this.expected == expected && this.regex == regex
      ensures totalMatches == successes == failures == errors == 0
    {
      this.parts, this.op, this.expected, this.regex := parts, op, expected, regex;
      totalMatches, successes, failures, errors := 0, 0, 0, 0;
    }

    /** `data` is the decoded input, None when it is not JSON. An input on which the path finds
        nothing is neither a success nor a failure. */
    method Match(data: Option<Json>) returns (r: Option<bool>)
      modifies this
      ensures r.None? <==> data.None?
      ensures data.Some? ==> r.value == Matches(data.value, parts, expected, op, regex)
      ensures totalMatches == old(totalMatches) + 1
      ensures errors == old(errors) + (if data.None? then 1 else 0)
      ensures successes == old(successes) + (if r == Some(true) then 1 else 0)
      ensures failures == old(failures)
                + (if r == Some(false) && Extract(data.value, parts).Some? then 1 else 0)
    {
      totalMatches := totalMatches + 1;
      if data.None? {
        errors := errors + 1;
        return None;
      }
      var value := ExtractValueRecursive(data.value, parts);
      if value.None? {
        return Some(false);
      }
      var result;
      match op {
        case Equal => result := CompareEqual(value.value, expected);
        case NotEqual =>
          result := CompareEqual(value.value, expected);
          result := !result;
        case RegexMatch => result := value.value.Text? && regex(value.value.s);
        case _ => result := CompareNumeric(value.value, expected, op);
      }
      if result {
        successes := successes + 1;
      } else {
        failures := failures + 1;
      }
      return Some(result);
    }
  }

  // ---- the meaning of a path: choose an element at every wildcard ----

  ghost predicate Reaches(v: Json, parts: seq<Part>, w: Json)
    decreases |parts|
  {
    if parts == [] then w == v
    else
      match parts[0]
      case Field(name) => NavigateToField(v, name).Some? && Reaches(NavigateToField(v, name).value, parts[1..], w)
      case At(list, index) =>
        ArrayAt(v, list).Some? && 0 <= index < |ArrayAt(v, list).value|
        && Reaches(ArrayAt(v, list).value[index], parts[1..], w)
      case Each(list) =>
        ArrayAt(v, list).Some?
        && exists k :: 0 <= k < |ArrayAt(v, list).value| && Reaches(ArrayAt(v, list).value[k], parts[1..], w)
  }

  /** `x` is a value inside `w` after opening nothing but arrays. */
  ghost predicate Leaf(w: Json, x: Json)
    decreases w
  {
    if w.Array? then exists k :: 0 <= k < |w.items| && Leaf(w.items[k], x) else x == w
  }

  /** `x` is a leaf of some value the path can reach. */
  ghost predicate ReachesLeaf(v: Json, parts: seq<Part>, x: Json) {
    exists w :: Reaches(v, parts, w) && Leaf(w, x)
  }

  /** == matches exactly when some choice of wildcard elements reaches a leaf equal to the expected value. */
  lemma EqualMatchesReachableLeaf(v: Json, parts: seq<Part>, e: Scalar, regex: string -> bool)
    ensures Matches(v, parts, e, Equal, regex) <==> exists x :: ReachesLeaf(v, parts, x) && Same(x, e)
  {
    forall x ensures ReachesLeaf(v, parts, x) <==> Extract(v, parts).Some? && Leaf(Extract(v, parts).value, x) {
      ExtractKeepsLeaves(v, parts, x);
    }
    if Extract(v, parts).Some? { EqualMeansLeaf(Extract(v, parts).value, e); }
  }

  /** When the path resolves exactly one of == and != matches, otherwise neither; and != rejects
      every reachable equal leaf, it does not ask for a different one. */
  lemma ExactlyOneOfEqualAndNotEqual(v: Json, parts: seq<Part>, e: Scalar, regex: string -> bool)
    ensures Resolves(v, parts) ==> Matches(v, parts, e, Equal, regex) != Matches(v, parts, e, NotEqual, regex)
    ensures !Resolves(v, parts) ==> !Matches(v, parts, e, Equal, regex) && !Matches(v, parts, e, NotEqual, regex)
    ensures Matches(v, parts, e, NotEqual, regex)
            <==> Resolves(v, parts) && forall x :: ReachesLeaf(v, parts, x) ==> !Same(x, e)
  {
    ResolvesExactly(v, parts);
    EqualMatchesReachableLeaf(v, parts, e, regex);
  }

  /** The path leads somewhere: as Reaches, but a last wildcard is content with the array itself. */
  ghost predicate Resolves(v: Json, parts: seq<Part>)
    decreases |parts|
  {
    if parts == [] then true
    else
      match parts[0]
      case Field(name) => NavigateToField(v, name).Some? && Resolves(NavigateToField(v, name).value, parts[1..])
      case At(list, index) =>
        ArrayAt(v, list).Some? && 0 <= index < |ArrayAt(v, list).value|
        && Resolves(ArrayAt(v, list).value[index], parts[1..])
      case Each(list) =>
        ArrayAt(v, list).Some?
        && (|parts| == 1
            || exists k :: 0 <= k < |ArrayAt(v, list).value| && Resolves(ArrayAt(v, list).value[k], parts[1..]))
  }

  lemma {:induction false} ResolvesExactly(v: Json, parts: seq<Part>)
    ensures Extract(v, parts).Some? <==> Resolves(v, parts)
    decreases |parts|
  {
    if parts != [] {
      var rest := parts[1..];
      match parts[0]
      case Field(name) =>
        if NavigateToField(v, name).Some? { ResolvesExactly(NavigateToField(v, name).value, rest); }
      case At(list, index) =>
        if ArrayAt(v, list).Some? && 0 <= index < |ArrayAt(v, list).value| {
          ResolvesExactly(ArrayAt(v, list).value[index], rest);
        }
      case Each(list) =>
        if ArrayAt(v, list).Some? && rest != [] {
          var arr := ArrayAt(v, list).value;
          EachNonEmpty(arr, rest);
          forall k | 0 <= k < |arr| ensures Extract(arr[k], rest).Some? <==> Resolves(arr[k], rest) {
            ResolvesExactly(arr[k], rest);
          }
        }
    }
  }

  lemma {:induction false} EachNonEmpty(arr: seq<Json>, parts: seq<Part>)
    ensures ExtractEach(arr, parts) != [] <==> exists k :: 0 <= k < |arr| && Extract(arr[k], parts).Some?
  {
    if arr != [] {
      var n := |arr| - 1;
      EachNonEmpty(arr[..n], parts);
      assert forall k :: 0 <= k < n ==> arr[..n][k] == arr[k];
    }
  }

  lemma {:induction false} EqualMeansLeaf(w: Json, e: Scalar)
    ensures EqualAnywhere(w, e) <==> exists x :: Leaf(w, x) && Same(x, e)
  {
    if w.Array? {
      forall k | 0 <= k < |w.items|
        ensures EqualAnywhere(w.items[k], e) <==> exists x :: Leaf(w.items[k], x) && Same(x, e)
      {
        EqualMeansLeaf(w.items[k], e);
      }
      if EqualAnywhere(w, e) {
        var k :| 0 <= k < |w.items| && EqualAnywhere(w.items[k], e);
        var x :| Leaf(w.items[k], x) && Same(x, e);
        assert Leaf(w, x);
      }
    } else if Same(w, e) {
      assert Leaf(w, w);
    }
  }

  /** Collecting the results of a wildcard into an array keeps exactly the reachable leaves. */
  lemma {:induction false} ExtractKeepsLeaves(v: Json, parts: seq<Part>, x: Json)
    ensures ReachesLeaf(v, parts, x) <==> Extract(v, parts).Some? && Leaf(Extract(v, parts).value, x)
    decreases |parts|
  {
    if parts == [] {
      assert Reaches(v, parts, v);
    } else {
      var rest := parts[1..];
      match parts[0]
      case Field(name) =>
        if NavigateToField(v, name).Some? {
          var u := NavigateToField(v, name).value;
          ExtractKeepsLeaves(u, rest, x);
          assert forall w :: Reaches(v, parts, w) <==> Reaches(u, rest, w);
        }
      case At(list, index) =>
        if ArrayAt(v, list).Some? && 0 <= index < |ArrayAt(v, list).value| {
          var u := ArrayAt(v, list).value[index];
          ExtractKeepsLeaves(u, rest, x);
          assert forall w :: Reaches(v, parts, w) <==> Reaches(u, rest, w);
        }
      case Each(list) =>
        if ArrayAt(v, list).Some? { WildcardKeepsLeaves(v, parts, ArrayAt(v, list).value, x); }
    }
  }

  lemma WildcardKeepsLeaves(v: Json, parts: seq<Part>, arr: seq<Json>, x: Json)
    requires parts != [] && parts[0].Each? && ArrayAt(v, parts[0].list) == Some(arr)
    ensures ReachesLeaf(v, parts, x) <==> Extract(v, parts).Some? && Leaf(Extract(v, parts).value, x)
    decreases |parts|, 0
  {
    var rest := parts[1..];
    forall k | 0 <= k < |arr|
      ensures ReachesLeaf(arr[k], rest, x) <==> Extract(arr[k], rest).Some? && Leaf(Extract(arr[k], rest).value, x)
    {
      ExtractKeepsLeaves(arr[k], rest, x);
    }
    OneElementReaches(v, parts, arr, x);
    if rest == [] {
      assert forall k :: 0 <= k < |arr| ==> Extract(arr[k], rest) == Some(arr[k]);
      assert Leaf(Array(arr), x) <==> exists k :: 0 <= k < |arr| && Leaf(arr[k], x);
    } else {
      EachLeaves(arr, rest, x);
    }
  }

  lemma OneElementReaches(v: Json, parts: seq<Part>, arr: seq<Json>, x: Json)
    requires parts != [] && parts[0].Each? && ArrayAt(v, parts[0].list) == Some(arr)
    ensures ReachesLeaf(v, parts, x) <==> exists k :: 0 <= k < |arr| && ReachesLeaf(arr[k], parts[1..], x)
  {
    if ReachesLeaf(v, parts, x) {
      var w :| Reaches(v, parts, w) && Leaf(w, x);
      var k :| 0 <= k < |arr| && Reaches(arr[k], parts[1..], w);
      assert ReachesLeaf(arr[k], parts[1..], x);
    }
    if k :| 0 <= k < |arr| && ReachesLeaf(arr[k], parts[1..], x) {
      var w :| Reaches(arr[k], parts[1..], w) && Leaf(w, x);
      assert Reaches(v, parts, w);
    }
  }

  ghost predicate FoundLeaf(v: Json, parts: seq<Part>, x: Json) {
    Extract(v, parts).Some? && Leaf(Extract(v, parts).value, x)
  }

  lemma {:induction false} EachLeaves(arr: seq<Json>, parts: seq<Part>, x: Json)
    ensures Leaf(Array(ExtractEach(arr, parts)), x) <==> exists k :: 0 <= k < |arr| && FoundLeaf(arr[k], parts, x)
    ensures ExtractEach(arr, parts) == [] ==> !exists k :: 0 <= k < |arr| && FoundLeaf(arr[k], parts, x)
  {
    if arr != [] {
      var n := |arr| - 1;
      EachLeaves(arr[..n], parts, x);
      assert forall k :: 0 <= k < n ==> arr[..n][k] == arr[k];
      var before, found := ExtractEach(arr[..n], parts), Extract(arr[n], parts);
      LeafOfSnoc(before, match found case Some(w) => [w] case None => [], x);
    }
  }

  lemma LeafOfSnoc(ws: seq<Json>, more: seq<Json>, x: Json)
    requires |more| <= 1
    ensures Leaf(Array(ws + more), x) <==> Leaf(Array(ws), x) || (more != [] && Leaf(more[0], x))
  {
    var all := ws + more;
    if Leaf(Array(ws), x) {
      var k :| 0 <= k < |ws| && Leaf(ws[k], x);
      assert all[k] == ws[k];
    }
    if more != [] && Leaf(more[0], x) {
      assert all[|ws|] == more[0];
    }
    if Leaf(Array(all), x) {
      var k :| 0 <= k < |all| && Leaf(all[k], x);
      assert k < |ws| ==> ws[k] == all[k];
    }
  }

  // ---- a path without wildcards is a place in the document ----

  /** What surrounds a value: the other fields of its object, its neighbours in an array field, or its
      neighbours in an array. */
  datatype Step =
    | InField(others: map<string, Json>, name: string)
    | InList(others: map<string, Json>, list: string, before: seq<Json>, after: seq<Json>)
    | InArray(before: seq<Json>, after: seq<Json>)

  function Around(st: Step, x: Json): Json {
    match st
    case InField(others, name) => Object(others[name := x])
    case InList(others, list, before, after) => Object(others[list := Array(before + [x] + after)])
    case InArray(before, after) => Array(before + [x] + after)
  }

  function PartOf(st: Step): Part {
    match st
    case InField(_, name) => Field(name)
    case InList(_, list, before, _) => At(list, |before|)
    case InArray(before, _) => At("", |before|)
  }

  /** `v` is `x` put into these surroundings, outermost first, and `parts` names them. */
  ghost predicate Places(v: Json, steps: seq<Step>, parts: seq<Part>, x: Json)
    decreases |steps|
  {
    if steps == [] then parts == [] && v == x
    else
      && parts != [] && parts[0] == PartOf(steps[0]) && (steps[0].InList? ==> steps[0].list != "")
      && exists inner :: v == Around(steps[0], inner) && Places(inner, steps[1..], parts[1..], x)
  }

  ghost predicate NoWildcard(parts: seq<Part>) {
    forall k :: 0 <= k < |parts| ==> !parts[k].Each?
  }

  /** A path finds a value exactly in the documents that have it in the place the path names. */
  lemma PathNamesThePlace(v: Json, parts: seq<Part>, x: Json)
    requires NoWildcard(parts)
    ensures Extract(v, parts) == Some(x) <==> exists steps :: Places(v, steps, parts, x)
  {
    if Extract(v, parts) == Some(x) {
      var steps := FindSteps(v, parts, x);
      assert Places(v, steps, parts, x);
    }
    if exists steps :: Places(v, steps, parts, x) {
      var steps :| Places(v, steps, parts, x);
      FollowSteps(v, steps, parts, x);
    }
  }

  lemma {:induction false} FollowSteps(v: Json, steps: seq<Step>, parts: seq<Part>, x: Json)
    requires Places(v, steps, parts, x)
    ensures Extract(v, parts) == Some(x)
    decreases |steps|
  {
    if steps != [] {
      var st := steps[0];
      var inner :| v == Around(st, inner) && Places(inner, steps[1..], parts[1..], x);
      FollowSteps(inner, steps[1..], parts[1..], x);
      if !st.InField? { assert (st.before + [inner] + st.after)[|st.before|] == inner; }
    }
  }

  lemma {:induction false} FindSteps(v: Json, parts: seq<Part>, x: Json) returns (steps: seq<Step>)
    requires NoWildcard(parts) && Extract(v, parts) == Some(x)
    ensures Places(v, steps, parts, x)
    decreases |parts|
  {
    if parts == [] {
      return [];
    }
    var st, inner := FirstStep(v, parts[0]);
    var rest := FindSteps(inner, parts[1..], x);
    steps := [st] + rest;
    assert steps[1..] == rest;
  }

  lemma FirstStep(v: Json, part: Part) returns (st: Step, inner: Json)
    requires !part.Each?
    requires if part.Field? then NavigateToField(v, part.name).Some?
             else ArrayAt(v, part.list).Some? && 0 <= part.index < |ArrayAt(v, part.list).value|
    ensures PartOf(st) == part && (st.InList? ==> st.list != "") && v == Around(st, inner)
    ensures if part.Field? then NavigateToField(v, part.name) == Some(inner)
            else inner == ArrayAt(v, part.list).value[part.index]
  {
    match part {
      case Field(name) =>
        st, inner := InField(v.fields, name), v.fields[name];
        assert v.fields == v.fields[name := inner];
      case At(list, index) =>
        var arr := ArrayAt(v, list).value;
        inner := arr[index];
        assert arr == arr[..index] + [inner] + arr[index + 1..];
        if list == "" {
          st := InArray(arr[..index], arr[index + 1..]);
        } else {
          st := InList(v.fields, list, arr[..index], arr[index + 1..]);
          assert v.fields == v.fields[list := Array(arr)];
        }
    }
  }

  // ---- what each operator asks for ----

  /** The expected scalar as a JSON value. */
  function AsJson(e: Scalar): Json {
    match e
    case IntValue(i) => Number(i as real)
    case FloatValue(r) => Number(r)
    case TextValue(t) => Text(t)
    case BoolValue(b) => Bool(b)
    case NullValue => Null
  }

  /** A leaf is the expected scalar or it is not: kinds are never converted. */
  lemma SameIsEquality(x: Json, e: Scalar)
    ensures Same(x, e) <==> x == AsJson(e)
  {
  }

  /** So == matches exactly when the expected value itself is a leaf within reach. */
  lemma EqualFindsTheValue(v: Json, parts: seq<Part>, e: Scalar, regex: string -> bool)
    ensures Matches(v, parts, e, Equal, regex) <==> ReachesLeaf(v, parts, AsJson(e))
  {
    EqualMatchesReachableLeaf(v, parts, e, regex);
    forall x ensures Same(x, e) <==> x == AsJson(e) { SameIsEquality(x, e); }
  }

  /** A number at the end of the path stands in exactly one relation to an expected number, and the
      weak operators are the strict ones or equality. */
  lemma NumbersAreOrdered(v: Json, parts: seq<Part>, n: real, e: Scalar, regex: string -> bool)
    requires Extract(v, parts) == Some(Number(n)) && AsJson(e).Number?
    ensures var gt, lt, eq := Matches(v, parts, e, Greater, regex), Matches(v, parts, e, Less, regex),
                              Matches(v, parts, e, Equal, regex);
      && (gt || lt || eq) && !(gt && lt) && !(gt && eq) && !(lt && eq)
      && (Matches(v, parts, e, GreaterOrEqual, regex) <==> gt || eq)
      && (Matches(v, parts, e, LessOrEqual, regex) <==> lt || eq)
  {
  }

  /** > survives a smaller expected number and < a larger one; and each is met. */
  lemma OrderPointsTheRightWay(v: Json, parts: seq<Part>, n: real, regex: string -> bool)
    requires Extract(v, parts) == Some(Number(n))
    ensures forall x: real, y: real :: x <= y && Matches(v, parts, FloatValue(y), Greater, regex) ==>
              Matches(v, parts, FloatValue(x), Greater, regex)
    ensures forall x: real, y: real :: x <= y && Matches(v, parts, FloatValue(x), Less, regex) ==>
              Matches(v, parts, FloatValue(y), Less, regex)
    ensures Matches(v, parts, FloatValue(n - 1.0), Greater, regex)
        && Matches(v, parts, FloatValue(n + 1.0), Less, regex)
    ensures forall i: int, op :: Matches(v, parts, IntValue(i), op, regex)
              <==> Matches(v, parts, FloatValue(i as real), op, regex)
  {
  }

  /** An order asks for a number on both sides; a list of numbers is none. */
  lemma OrderNeedsNumbers(v: Json, parts: seq<Part>, e: Scalar, op: Operator, regex: string -> bool)
    requires op in {Greater, Less, GreaterOrEqual, LessOrEqual}
    ensures Matches(v, parts, e, op, regex) ==>
      Extract(v, parts).Some? && Extract(v, parts).value.Number? && AsJson(e).Number?
  {
  }

  /** The regex operator asks for a text that the pattern matches, whatever is expected. */
  lemma RegexNeedsText(v: Json, parts: seq<Part>, e: Scalar, regex: string -> bool)
    ensures Matches(v, parts, e, RegexMatch, regex) <==> exists t :: Extract(v, parts) == Some(Text(t)) && regex(t)
  {
  }
}
