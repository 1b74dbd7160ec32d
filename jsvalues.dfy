/**
 * The few pieces of JavaScript value semantics the extension's code relies on:
 * truthiness (`||`, `if (x)`, `.filter(Boolean)`), indexing (`data[0]`, `item[0]`),
 * conversion to string and `Array.prototype.join`, `String.prototype.split`,
 * `String.prototype.trim` and `String.prototype.includes`.
 */
module JsValues {
  import opened Wrappers

  /** A value as parsed from a JSON body (plus `undefined`, which indexing produces).
      Numbers are integers; an object is its properties by name. */
  datatype JsValue =
    | Undefined
    | Null
    | Bool(b: bool)
    | Num(n: int)
    | Str(s: string)
    | Arr(elems: seq<JsValue>)
    | Obj(fields: map<string, JsValue>)

  /** JavaScript truthiness: `false`, `0`, `""`, `null` and `undefined` are falsy. */
  predicate Truthy(v: JsValue) {
    match v
    case Undefined => false
    case Null => false
    case Bool(b) => b
    case Num(n) => n != 0
    case Str(s) => s != ""
    case Arr(_) => true
    case Obj(_) => true
  }

  /** `v[i]`; `None` when the access throws a TypeError (reading from null or undefined). An
      object is read at the property named by the decimal digits of `i`. */
  function Index(v: JsValue, i: nat): (r: Option<JsValue>)
    ensures r.None? <==> v.Undefined? || v.Null?
    ensures v.Arr? && i < |v.elems| ==> r == Some(v.elems[i])
    ensures v.Arr? && |v.elems| <= i ==> r == Some(Undefined)
    ensures v.Obj? ==> r == Some(Property(v.fields, NatToString(i)))
    ensures v.Bool? || v.Num? ==> r == Some(Undefined)
  {
    match v
    case Undefined => None
    case Null => None
    case Arr(xs) => Some(if i < |xs| then xs[i] else Undefined)
    case Str(s) => Some(if i < |s| then Str([s[i]]) else Undefined)
    case Obj(fields) => Some(Property(fields, NatToString(i)))
    case _ => Some(Undefined)
  }

  /** `o[name]`: the property's value, or `undefined` when the object has no such property. */
  function Property(fields: map<string, JsValue>, name: string): JsValue {
    if name in fields then fields[name] else Undefined
  }

  function DigitChar(d: nat): (c: char)
    requires d < 10
    ensures c as int == '0' as int + d
  {
    "0123456789"[d]
  }

  /** The decimal digits of `n`, as `String(n)` writes them. */
  function NatToString(n: nat): (r: string)
    ensures |r| >= 1
    ensures IsDecimal(r)
    ensures DecimalValue(r) == n
    ensures |r| > 1 ==> r[0] != '0'
    decreases n
  {
    if n < 10 then [DigitChar(n)]
    else
      var r := NatToString(n / 10) + [DigitChar(n % 10)];
      assert r[..|r| - 1] == NatToString(n / 10);
      r
  }

  predicate IsDecimal(s: string) {
    forall k :: 0 <= k < |s| ==> '0' <= s[k] <= '9'
  }

  /** The number a string of decimal digits spells, most significant digit first. */
  function DecimalValue(s: string): nat
    requires IsDecimal(s)
  {
    if |s| == 0 then 0 else DecimalValue(s[..|s| - 1]) * 10 + (s[|s| - 1] as int - '0' as int)
  }

  function IntToString(n: int): string {
    if n < 0 then "-" + NatToString(-n) else NatToString(n)
  }

  /** `String(v)`. An array converts as `v.join(",")`. */
  function ToString(v: JsValue): string
    decreases v, 2
  {
    match v
    case Undefined => "undefined"
    case Null => "null"
    case Bool(b) => if b then "true" else "false"
    case Num(n) => IntToString(n)
    case Str(s) => s
    case Arr(xs) => JoinValues(v, ",")
    case Obj(_) => "[object Object]"
  }

  /** The strings `Array.prototype.join` puts between separators: `null` and `undefined` become "". */
  function ElementStrings(v: JsValue): (r: seq<string>)
    requires v.Arr?
    ensures |r| == |v.elems|
    decreases v, 0
  {
    seq(|v.elems|, i requires 0 <= i < |v.elems| =>
      assert v.elems[i] in v.elems;
      if v.elems[i].Undefined? || v.elems[i].Null? then "" else ToString(v.elems[i]))
  }

  /** `arr.join(sep)` for the array value `v`. */
  function JoinValues(v: JsValue, sep: string): string
    requires v.Arr?
    decreases v, 1
  {
    Join(ElementStrings(v), sep)
  }

  /** Strings placed one after another with `sep` between neighbours. */
  function Join(xs: seq<string>, sep: string): string {
    if |xs| == 0 then ""
    else if |xs| == 1 then xs[0]
    else xs[0] + sep + Join(xs[1..], sep)
  }

  /** `s.split(c)` for a one-character separator. */
  function Split(s: string, c: char): (r: seq<string>)
    ensures |r| >= 1
    decreases |s|
  {
    if |s| == 0 then [""]
    else
      var rest := Split(s[1..], c);
      if s[0] == c then [""] + rest
      else [[s[0]] + rest[0]] + rest[1..]
  }

  lemma {:induction false} SplitWithoutSeparator(a: string, c: char)
    requires c !in a
    ensures Split(a, c) == [a]
    decreases |a|
  {
    if |a| > 0 {
      assert c !in a[1..];
      SplitWithoutSeparator(a[1..], c);
      assert [a[0]] + a[1..] == a;
    }
  }

  lemma {:induction false} SplitAtFirstSeparator(a: string, c: char, b: string)
    requires c !in a
    ensures Split(a + [c] + b, c) == [a] + Split(b, c)
    decreases |a|
  {
    var s := a + [c] + b;
    if |a| == 0 {
      assert s[1..] == b;
    } else {
      assert s[1..] == a[1..] + [c] + b;
      assert c !in a[1..];
      SplitAtFirstSeparator(a[1..], c, b);
      assert [a[0]] + a[1..] == a;
    }
  }

  /** Joining pieces that do not contain the separator can be undone by splitting on it. */
  lemma {:induction false} SplitJoin(xs: seq<string>, c: char)
    requires |xs| >= 1
    requires forall i :: 0 <= i < |xs| ==> c !in xs[i]
    ensures Split(Join(xs, [c]), c) == xs
    decreases |xs|
  {
    if |xs| == 1 {
      SplitWithoutSeparator(xs[0], c);
    } else {
      SplitJoin(xs[1..], c);
      SplitAtFirstSeparator(xs[0], c, Join(xs[1..], [c]));
      assert [xs[0]] + xs[1..] == xs;
    }
  }

  /** The joined string holds every piece and one separator between each pair. */
  lemma {:induction false} JoinLength(xs: seq<string>, sep: string)
    requires |xs| >= 1
    ensures |Join(xs, sep)| == TotalLength(xs) + (|xs| - 1) * |sep|
    decreases |xs|
  {
    if |xs| > 1 {
      JoinLength(xs[1..], sep);
    }
  }

  function TotalLength(xs: seq<string>): nat {
    if |xs| == 0 then 0 else |xs[0]| + TotalLength(xs[1..])
  }

  /** The values of `xs` that `.filter(Boolean)` keeps, in their order. */
  function FilterTruthy(xs: seq<JsValue>): (r: seq<JsValue>)
    ensures |r| <= |xs|
    ensures forall i :: 0 <= i < |r| ==> Truthy(r[i])
  {
    if |xs| == 0 then []
    else if Truthy(xs[0]) then [xs[0]] + FilterTruthy(xs[1..])
    else FilterTruthy(xs[1..])
  }

  /** `filter(Boolean)` keeps order and repetitions: filtering two arrays one after the other
      gives the two filtered arrays one after the other. */
  lemma {:induction false} FilterTruthyAppend(a: seq<JsValue>, b: seq<JsValue>)
    ensures FilterTruthy(a + b) == FilterTruthy(a) + FilterTruthy(b)
    decreases |a|
  {
    if |a| == 0 {
      assert a + b == b;
    } else {
      var head := if Truthy(a[0]) then [a[0]] else [];
      calc {
        FilterTruthy(a + b);
      ==  { assert (a + b)[0] == a[0]; assert (a + b)[1..] == a[1..] + b; }
        head + FilterTruthy(a[1..] + b);
      ==  { FilterTruthyAppend(a[1..], b); }
        head + (FilterTruthy(a[1..]) + FilterTruthy(b));
      ==
        (head + FilterTruthy(a[1..])) + FilterTruthy(b);
      }
    }
  }

  /** `filter(Boolean)` keeps every truthy element and adds nothing. */
  lemma {:induction false} FilterTruthyMembers(xs: seq<JsValue>)
    ensures forall i :: 0 <= i < |xs| && Truthy(xs[i]) ==> xs[i] in FilterTruthy(xs)
    ensures forall v :: v in FilterTruthy(xs) ==> v in xs
    decreases |xs|
  {
    if |xs| > 0 {
      var tail := xs[1..];
      FilterTruthyMembers(tail);
      forall i | 1 <= i < |xs| && Truthy(xs[i]) ensures xs[i] in FilterTruthy(xs) {
        assert xs[i] == tail[i - 1];
      }
    }
  }

  /** A one-element array keeps its element exactly when it is truthy. */
  lemma FilterTruthySingle(v: JsValue)
    ensures FilterTruthy([v]) == if Truthy(v) then [v] else []
  {
    assert [v][1..] == [];
  }

  /** The characters `String.prototype.trim` removes: ECMAScript WhiteSpace and LineTerminator. */
  predicate IsWhiteSpace(c: char) {
    c == '\t' || c == '\n' || c == '\U{000B}' || c == '\U{000C}' || c == '\r' || c == ' '
    || c == '\U{00A0}' || c == '\U{1680}' || ('\U{2000}' <= c <= '\U{200A}')
    || c == '\U{2028}' || c == '\U{2029}' || c == '\U{202F}' || c == '\U{205F}'
    || c == '\U{3000}' || c == '\U{FEFF}'
  }

  function TrimStart(s: string): (r: string)
    ensures |r| <= |s| && r == s[|s| - |r|..]
    ensures r != "" ==> !IsWhiteSpace(r[0])
  {
    if |s| > 0 && IsWhiteSpace(s[0]) then TrimStart(s[1..]) else s
  }

  function TrimEnd(s: string): (r: string)
    ensures |r| <= |s| && r == s[..|r|]
    ensures r != "" ==> !IsWhiteSpace(r[|r| - 1])
  {
    if |s| > 0 && IsWhiteSpace(s[|s| - 1]) then TrimEnd(s[..|s| - 1]) else s
  }

  /** What `TrimStart` removes is white space. */
  lemma {:induction false} TrimStartRemovesWhiteSpace(s: string)
    ensures forall i :: 0 <= i < |s| - |TrimStart(s)| ==> IsWhiteSpace(s[i])
    decreases |s|
  {
    if |s| > 0 && IsWhiteSpace(s[0]) {
      TrimStartRemovesWhiteSpace(s[1..]);
      forall i | 1 <= i < |s| - |TrimStart(s)| ensures IsWhiteSpace(s[i]) {
        assert s[i] == s[1..][i - 1];
      }
    }
  }

  /** What `TrimEnd` removes is white space. */
  lemma {:induction false} TrimEndRemovesWhiteSpace(s: string)
    ensures forall i :: |TrimEnd(s)| <= i < |s| ==> IsWhiteSpace(s[i])
    decreases |s|
  {
    if |s| > 0 && IsWhiteSpace(s[|s| - 1]) {
      TrimEndRemovesWhiteSpace(s[..|s| - 1]);
      forall i | |TrimEnd(s)| <= i < |s| - 1 ensures IsWhiteSpace(s[i]) {
        assert s[i] == s[..|s| - 1][i];
      }
    }
  }

  /** `s.trim()`: `s` without its leading and trailing white space. */
  function Trim(s: string): (r: string)
    ensures |r| <= |s|
    ensures r != "" ==> !IsWhiteSpace(r[0]) && !IsWhiteSpace(r[|r| - 1])
  {
    TrimEnd(TrimStart(s))
  }

  /** Trimming removes nothing from a string that neither starts nor ends with white space. */
  lemma TrimUnchanged(s: string)
    requires s == "" || (!IsWhiteSpace(s[0]) && !IsWhiteSpace(s[|s| - 1]))
    ensures Trim(s) == s
  {
  }

  /** Trimming leaves nothing exactly when the string is all white space. */
  lemma TrimEmpty(s: string)
    ensures Trim(s) == "" <==> forall i :: 0 <= i < |s| ==> IsWhiteSpace(s[i])
  {
    var t := TrimStart(s);
    TrimStartRemovesWhiteSpace(s);
    TrimEndRemovesWhiteSpace(t);
  }

  /** `s.includes(p)`. */
  predicate Contains(s: string, p: string)
    decreases |s|
  {
    p <= s || (|s| > 0 && Contains(s[1..], p))
  }

  /** `p` appears in `s` starting at index `i`. */
  ghost predicate OccursAt(s: string, p: string, i: int) {
    0 <= i && i + |p| <= |s| && s[i..i + |p|] == p
  }

  /** An `includes` that holds names an index where `p` occurs. */
  lemma {:induction false} OccurrenceOfContains(s: string, p: string) returns (i: nat)
    requires Contains(s, p)
    ensures OccursAt(s, p, i)
    decreases |s|
  {
    if p <= s {
      i := 0;
      assert s[0..|p|] == p;
    } else {
      var j := OccurrenceOfContains(s[1..], p);
      i := j + 1;
      assert s[i..i + |p|] == s[1..][j..j + |p|];
    }
  }

  /** An occurrence of `p` anywhere in `s` makes `includes` hold. */
  lemma {:induction false} ContainsOfOccurrence(s: string, p: string, i: int)
    requires OccursAt(s, p, i)
    ensures Contains(s, p)
    decreases i
  {
    if i == 0 {
      assert p <= s;
    } else {
      assert s[1..][i - 1..i - 1 + |p|] == s[i..i + |p|];
      ContainsOfOccurrence(s[1..], p, i - 1);
    }
  }

  lemma ContainsAt(s: string, p: string)
    ensures Contains(s, p) <==> exists i :: OccursAt(s, p, i)
  {
    if Contains(s, p) {
      var i := OccurrenceOfContains(s, p);
    }
    if exists i :: OccursAt(s, p, i) {
      var i :| OccursAt(s, p, i);
      ContainsOfOccurrence(s, p, i);
    }
  }
}
