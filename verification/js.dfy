/**
 * The slice of JavaScript semantics the modelled middleware and template helpers rely on:
 * values and their truthiness, plain objects as ordered property lists, `String(v)`,
 * `Array.prototype.join` and `String.prototype.trim`.
 */
module Js {

  datatype Option<+T> = None | Some(value: T)

  /**
   * A JavaScript value. Numbers are integers (NaN kept apart, fractions not modelled); an
   * object is its own enumerable properties in for-in order.
   */
  datatype Value =
    | Undefined
    | Null
    | Bool(b: bool)
    | Num(n: int)
    | NaN
    | Str(s: string)
    | Arr(items: seq<Value>)
    | Obj(props: seq<Prop>)

  datatype Prop = Prop(key: string, val: Value)

  /** ToBoolean: what `if (v)` accepts. */
  predicate Truthy(v: Value)
  {
    match v
    case Undefined => false
    case Null => false
    case Bool(b) => b
    case Num(n) => n != 0
    case NaN => false
    case Str(s) => s != ""
    case Arr(_) => true
    case Obj(_) => true
  }

  /**
   * `typeof(v) !== "undefined"`: every value an `if` accepts is defined, and undefined is
   * the one value both tests reject.
   */
  function IsDefined(v: Value): (defined: bool)
    ensures defined <==> !v.Undefined?
    ensures Truthy(v) ==> defined
    ensures !defined ==> !Truthy(v) && v == Undefined
  {
    !v.Undefined?
  }

  // ---------------------------------------------------------------------------------------------
  // Objects as ordered property lists
  // ---------------------------------------------------------------------------------------------

  /** The property names, in enumeration order. */
  function Keys(ps: seq<Prop>): (ks: seq<string>)
    ensures |ks| == |ps|
    ensures forall i :: 0 <= i < |ps| ==> ks[i] == ps[i].key
  {
    if ps == [] then [] else [ps[0].key] + Keys(ps[1..])
  }

  /** A JavaScript object never has two properties with the same name. */
  predicate DistinctKeys(ps: seq<Prop>)
  {
    forall i, j :: 0 <= i < j < |ps| ==> ps[i].key != ps[j].key
  }

  /** `o[k]`: the value of the first property named k, undefined when there is none. */
  function Get(ps: seq<Prop>, k: string): (v: Value)
    ensures k !in Keys(ps) ==> v == Undefined
  {
    if ps == [] then Undefined
    else if ps[0].key == k then ps[0].val
    else Get(ps[1..], k)
  }

  /** In an object, reading a property's name gives that property's value. */
  lemma {:induction false} GetAt(ps: seq<Prop>, i: nat)
    requires DistinctKeys(ps) && i < |ps|
    ensures Get(ps, ps[i].key) == ps[i].val
  {
    if i > 0 {
      assert ps[0].key != ps[i].key;
      GetAt(ps[1..], i - 1);
    }
  }

  /** `o[k] = v` (PutGet and PutOther say what it does). */
  function Put(ps: seq<Prop>, k: string, v: Value): seq<Prop>
  {
    if ps == [] then [Prop(k, v)]
    else if ps[0].key == k then [Prop(k, v)] + ps[1..]
    else [ps[0]] + Put(ps[1..], k, v)
  }

  /**
   * After `o[k] = v` the property k holds v; a property that existed keeps its place, a new one
   * is added last.
   */
  lemma {:induction false} PutGet(ps: seq<Prop>, k: string, v: Value)
    ensures Keys(Put(ps, k, v)) == if k in Keys(ps) then Keys(ps) else Keys(ps) + [k]
    ensures Get(Put(ps, k, v), k) == v
  {
    if ps != [] && ps[0].key != k {
      PutGet(ps[1..], k, v);
    }
  }

  /** Assigning one property leaves every other property as it was. */
  lemma {:induction false} PutOther(ps: seq<Prop>, k: string, v: Value, k': string)
    requires k' != k
    ensures Get(Put(ps, k, v), k') == Get(ps, k')
  {
    if ps != [] && ps[0].key != k {
      PutOther(ps[1..], k, v, k');
    }
  }

  lemma PutKeepsDistinct(ps: seq<Prop>, k: string, v: Value)
    requires DistinctKeys(ps)
    ensures DistinctKeys(Put(ps, k, v))
  {
    var r := Put(ps, k, v);
    PutGet(ps, k, v);
    forall i, j | 0 <= i < j < |r| ensures r[i].key != r[j].key {
      assert Keys(r)[i] == r[i].key && Keys(r)[j] == r[j].key;
      if k !in Keys(ps) && j == |ps| {
        assert Keys(ps)[i] == ps[i].key;
      } else {
        assert Keys(ps)[i] == ps[i].key && Keys(ps)[j] == ps[j].key;
      }
    }
  }

  /** The properties that `keep` accepts, in their order. */
  function Filter(ps: seq<Prop>, keep: Prop -> bool): (r: seq<Prop>)
    ensures |r| <= |ps|
    ensures forall p :: p in r <==> p in ps && keep(p)
  {
    if ps == [] then []
    else
      var init := Filter(ps[..|ps| - 1], keep);
      var last := ps[|ps| - 1];
      assert ps == ps[..|ps| - 1] + [last];
      if keep(last) then init + [last] else init
  }

  /** Filters that agree on every element give the same result. */
  lemma {:induction false} FilterSame(ps: seq<Prop>, f: Prop -> bool, g: Prop -> bool)
    requires forall p :: p in ps ==> f(p) == g(p)
    ensures Filter(ps, f) == Filter(ps, g)
  {
    if ps != [] {
      assert ps == ps[..|ps| - 1] + [ps[|ps| - 1]];
      FilterSame(ps[..|ps| - 1], f, g);
    }
  }

  /** A filter that accepts everything keeps everything. */
  lemma {:induction false} FilterAll(ps: seq<Prop>, keep: Prop -> bool)
    requires forall p :: p in ps ==> keep(p)
    ensures Filter(ps, keep) == ps
  {
    if ps != [] {
      assert ps == ps[..|ps| - 1] + [ps[|ps| - 1]];
      FilterAll(ps[..|ps| - 1], keep);
    }
  }

  /** Filtering twice is filtering once by both tests. */
  lemma {:induction false} FilterFilter(ps: seq<Prop>, f: Prop -> bool, g: Prop -> bool)
    ensures Filter(Filter(ps, f), g) == Filter(ps, p => f(p) && g(p))
  {
    if ps != [] {
      var init, last := ps[..|ps| - 1], ps[|ps| - 1];
      FilterFilter(init, f, g);
      if f(last) {
        assert (Filter(init, f) + [last])[..|Filter(init, f)|] == Filter(init, f);
      }
    }
  }

  /** `delete o[k]`: the properties named k go, the others keep their values and their order. */
  function Delete(ps: seq<Prop>, k: string): (r: seq<Prop>)
    ensures |r| <= |ps|
    ensures forall p :: p in r <==> p in ps && p.key != k
  {
    Filter(ps, (p: Prop) => p.key != k)
  }

  /** After `delete o[k]` the object still has distinct names, k is gone, and every other name reads as before. */
  lemma DeleteDistinct(ps: seq<Prop>, k: string)
    requires DistinctKeys(ps)
    ensures DistinctKeys(Delete(ps, k))
    ensures k !in Keys(Delete(ps, k))
    ensures forall k' :: k' != k ==> Get(Delete(ps, k), k') == Get(ps, k')
  {
    DeleteKeys(ps, k);
    forall k' | k' != k ensures Get(Delete(ps, k), k') == Get(ps, k') {
      DeleteGetOther(ps, k, k');
    }
  }

  lemma DeleteKeys(ps: seq<Prop>, k: string)
    requires DistinctKeys(ps)
    ensures DistinctKeys(Delete(ps, k))
    ensures k !in Keys(Delete(ps, k))
  {
    var r := Delete(ps, k);
    forall i, j | 0 <= i < j < |r| ensures r[i].key != r[j].key {
      FilterOrder(ps, (p: Prop) => p.key != k, i, j);
    }
    forall j | 0 <= j < |r| ensures Keys(r)[j] != k {
      assert r[j] in ps;
    }
  }

  lemma DeleteGetOther(ps: seq<Prop>, k: string, k': string)
    requires DistinctKeys(ps) && k' != k
    ensures Get(Delete(ps, k), k') == Get(ps, k')
  {
    var r := Delete(ps, k);
    DeleteKeys(ps, k);
    GetOfDistinct(ps, k');
    GetOfDistinct(r, k');
    if i :| 0 <= i < |ps| && ps[i].key == k' {
      assert ps[i] in r;
      var j :| 0 <= j < |r| && r[j] == ps[i];
    } else {
      forall j | 0 <= j < |r| ensures r[j].key != k' {
        assert r[j] in ps;
      }
    }
  }

  /** Filter keeps the relative order of what it keeps, so distinct names stay distinct. */
  lemma {:induction false} FilterOrder(ps: seq<Prop>, keep: Prop -> bool, i: nat, j: nat)
    requires DistinctKeys(ps)
    requires i < j < |Filter(ps, keep)|
    ensures Filter(ps, keep)[i].key != Filter(ps, keep)[j].key
  {
    var init := ps[..|ps| - 1];
    var last := ps[|ps| - 1];
    assert DistinctKeys(init);
    if !keep(last) || j < |Filter(init, keep)| {
      FilterOrder(init, keep, i, j);
    } else {
      var r := Filter(ps, keep);
      assert r[i] in Filter(init, keep);
      assert r[i] in init;
      assert r[j] == last;
    }
  }

  /** With distinct names, `o[k]` is the value of the property named k, wherever it stands. */
  lemma GetOfDistinct(ps: seq<Prop>, k: string)
    requires DistinctKeys(ps)
    ensures k in Keys(ps) <==> exists i :: 0 <= i < |ps| && ps[i].key == k
    ensures forall i :: 0 <= i < |ps| && ps[i].key == k ==> Get(ps, k) == ps[i].val
  {
    forall i | 0 <= i < |ps| && ps[i].key == k ensures Get(ps, k) == ps[i].val {
      GetAt(ps, i);
    }
    if k in Keys(ps) {
      var i :| 0 <= i < |ps| && Keys(ps)[i] == k;
    }
  }

  /**
   * The properties a for-in loop over v visits: an object's own properties, an array's
   * elements and a string's characters under their indices; nothing for any other value.
   */
  function ForIn(v: Value): (ps: seq<Prop>)
    ensures v.Obj? ==> ps == v.props
    ensures !v.Obj? && !v.Arr? && !v.Str? ==> ps == []
  {
    match v
    case Obj(props) => props
    case Arr(items) => seq(|items|, i requires 0 <= i < |items| => Prop(NatToString(i), items[i]))
    case Str(s) => seq(|s|, i requires 0 <= i < |s| => Prop(NatToString(i), Str([s[i]])))
    case _ => []
  }

  // ---------------------------------------------------------------------------------------------
  // JSON
  // ---------------------------------------------------------------------------------------------

  /**
   * `JSON.parse(JSON.stringify(v))` for a value other than undefined: NaN becomes null, an
   * undefined array element becomes null and a property whose value is undefined is dropped.
   */
  function JsonCopy(v: Value): (c: Value)
    ensures v.Obj? ==> c.Obj?
    decreases v
  {
    match v
    case NaN => Null
    case Arr(items) =>
      Arr(seq(|items|, i requires 0 <= i < |items| =>
        if items[i].Undefined? then Null else JsonCopy(items[i])))
    case Obj(props) =>
      var kept := Filter(props, (p: Prop) => !p.val.Undefined?);
      Obj(seq(|kept|, i requires 0 <= i < |kept| =>
        assert kept[i] in props; Prop(kept[i].key, JsonCopy(kept[i].val))))
    case _ => v
  }

  /** A value JSON represents exactly: no undefined and no NaN anywhere inside it. */
  predicate JsonSafe(v: Value)
    decreases v
  {
    match v
    case Undefined => false
    case NaN => false
    case Arr(items) => forall i :: 0 <= i < |items| ==> JsonSafe(items[i])
    case Obj(props) => forall i :: 0 <= i < |props| ==> JsonSafe(props[i].val)
    case _ => true
  }

  /** A JSON copy of a defined value is JSON-safe, and a JSON-safe value is its own copy. */
  lemma {:induction false} JsonCopySafe(v: Value)
    ensures !v.Undefined? ==> JsonSafe(JsonCopy(v))
    ensures JsonSafe(v) ==> JsonCopy(v) == v
    decreases v, 1
  {
    match v
    case Arr(_) => JsonCopySafeItems(v);
    case Obj(_) => JsonCopySafeProps(v);
    case _ =>
  }

  lemma {:induction false} JsonCopySafeItems(v: Value)
    requires v.Arr?
    ensures JsonSafe(JsonCopy(v))
    ensures JsonSafe(v) ==> JsonCopy(v) == v
    decreases v, 0
  {
    var items := v.items;
    forall i | 0 <= i < |items| ensures !items[i].Undefined? ==> JsonSafe(JsonCopy(items[i]))
      ensures JsonSafe(items[i]) ==> JsonCopy(items[i]) == items[i]
    {
      JsonCopySafe(items[i]);
    }
  }

  lemma {:induction false} JsonCopySafeProps(v: Value)
    requires v.Obj?
    ensures JsonSafe(JsonCopy(v))
    ensures JsonSafe(v) ==> JsonCopy(v) == v
    decreases v, 0
  {
    var props := v.props;
    {
      var keep := (p: Prop) => !p.val.Undefined?;
      var kept := Filter(props, keep);
      forall i | 0 <= i < |kept| ensures JsonSafe(JsonCopy(kept[i].val))
        ensures JsonSafe(kept[i].val) ==> JsonCopy(kept[i].val) == kept[i].val
      {
        assert kept[i] in props;
        JsonCopySafe(kept[i].val);
      }
      if JsonSafe(v) {
        forall p | p in props ensures keep(p) {
          var i :| 0 <= i < |props| && props[i] == p;
          assert JsonSafe(props[i].val);
        }
        FilterAll(props, keep);
      }
    }
  }

  /**
   * In an object, reading a property of its JSON copy gives the copy of the property's
   * value; a property holding undefined is dropped, which reads as undefined all the same.
   */
  lemma GetJsonCopy(ps: seq<Prop>, k: string)
    requires DistinctKeys(ps)
    ensures Get(JsonCopy(Obj(ps)).props, k) == JsonCopy(Get(ps, k))
  {
    GetOfDistinct(ps, k);
    if i :| 0 <= i < |ps| && ps[i].key == k && !ps[i].val.Undefined? {
      GetCopyKept(ps, k, i);
    } else {
      GetCopyDropped(ps, k);
    }
  }

  /** A defined property survives the copy, copied. */
  lemma GetCopyKept(ps: seq<Prop>, k: string, i: nat)
    requires DistinctKeys(ps) && i < |ps| && ps[i].key == k && !ps[i].val.Undefined?
    ensures Get(JsonCopy(Obj(ps)).props, k) == JsonCopy(ps[i].val)
  {
    var kept := Filter(ps, (p: Prop) => !p.val.Undefined?);
    var copy := JsonCopy(Obj(ps)).props;
    CopiedProps(ps);
    CopiedKeysDistinct(ps);
    assert ps[i] in kept;
    var j :| 0 <= j < |kept| && kept[j] == ps[i];
    assert copy[j].key == k;
    GetOfDistinct(copy, k);
  }

  /** A name that is missing or undefined is missing from the copy. */
  lemma GetCopyDropped(ps: seq<Prop>, k: string)
    requires forall i :: 0 <= i < |ps| && ps[i].key == k ==> ps[i].val.Undefined?
    ensures Get(JsonCopy(Obj(ps)).props, k) == Undefined
  {
    var kept := Filter(ps, (p: Prop) => !p.val.Undefined?);
    var copy := JsonCopy(Obj(ps)).props;
    CopiedProps(ps);
    forall j | 0 <= j < |copy| ensures copy[j].key != k {
      assert kept[j] in ps;
    }
    assert k !in Keys(copy);
  }

  /** The copy of an object holds the copies of its defined properties, in order. */
  lemma CopiedProps(ps: seq<Prop>)
    ensures var kept := Filter(ps, (p: Prop) => !p.val.Undefined?);
      var copy := JsonCopy(Obj(ps)).props;
      && |copy| == |kept|
      && forall j :: 0 <= j < |copy| ==> copy[j] == Prop(kept[j].key, JsonCopy(kept[j].val))
  {
  }

  /** The copy of an object has distinct names when the object has. */
  lemma CopiedKeysDistinct(ps: seq<Prop>)
    requires DistinctKeys(ps)
    ensures DistinctKeys(JsonCopy(Obj(ps)).props)
  {
    var keep := (p: Prop) => !p.val.Undefined?;
    var copy := JsonCopy(Obj(ps)).props;
    CopiedProps(ps);
    forall i, j | 0 <= i < j < |copy| ensures copy[i].key != copy[j].key {
      FilterOrder(ps, keep, i, j);
    }
  }

  /** Copying a copy changes nothing. */
  lemma JsonCopyIdempotent(v: Value)
    requires !v.Undefined?
    ensures JsonCopy(JsonCopy(v)) == JsonCopy(v)
  {
    JsonCopySafe(v);
    JsonCopySafe(JsonCopy(v));
  }

  // ---------------------------------------------------------------------------------------------
  // Strings
  // ---------------------------------------------------------------------------------------------

  function Digit(d: nat): (c: char)
    requires d < 10
    ensures '0' <= c <= '9'
  {
    "0123456789"[d]
  }

  /** The decimal numeral of n, as `"" + n` prints it. */
  function NatToString(n: nat): (s: string)
    ensures 1 <= |s|
    ensures forall i :: 0 <= i < |s| ==> '0' <= s[i] <= '9'
    ensures n < 10 <==> |s| == 1
  {
    if n < 10 then [Digit(n)] else NatToString(n / 10) + [Digit(n % 10)]
  }

  /** The decimal text of `n` is that of `n / 10` followed by its last digit. */
  lemma NatToStringStep(n: nat, prefix: string, text: string)
    requires n >= 10 && NatToString(n / 10) == prefix && text == prefix + [Digit(n % 10)]
    ensures NatToString(n) == text
  {
  }

  function IntToString(n: int): (s: string)
    ensures |s| >= 1 && (n < 0 <==> s[0] == '-')
  {
    if n < 0 then "-" + NatToString(-n) else NatToString(n)
  }

  /** `parts.join(sep)`. */
  function Join(parts: seq<string>, sep: string): (s: string)
    ensures parts == [] ==> s == ""
    ensures |parts| == 1 ==> s == parts[0]
  {
    if parts == [] then ""
    else if |parts| == 1 then parts[0]
    else parts[0] + sep + Join(parts[1..], sep)
  }

  /** Joining one more part appends the separator and that part. */
  lemma {:induction false} JoinSnoc(parts: seq<string>, p: string, sep: string)
    requires parts != []
    ensures Join(parts + [p], sep) == Join(parts, sep) + sep + p
    decreases |parts|
  {
    if |parts| == 1 {
      assert parts + [p] == [parts[0], p];
      assert [parts[0], p][1..] == [p];
    } else {
      assert (parts + [p])[1..] == parts[1..] + [p];
      JoinSnoc(parts[1..], p, sep);
    }
  }

  /** `String(v)`, also the property name `o[v]` uses and what `v + "…"` appends. */
  function ToString(v: Value): string
  {
    match v
    case Undefined => "undefined"
    case Null => "null"
    case Bool(b) => if b then "true" else "false"
    case Num(n) => IntToString(n)
    case NaN => "NaN"
    case Str(s) => s
    case Arr(items) =>
      Join(seq(|items|, i requires 0 <= i < |items| =>
        if items[i].Undefined? || items[i].Null? then "" else ToString(items[i])), ",")
    case Obj(_) => "[object Object]"
  }

  /** `s.indexOf(c)` for a single character: its first position, or -1. */
  function IndexOf(s: string, c: char): (i: int)
    ensures -1 <= i < |s|
    ensures i == -1 <==> c !in s
    ensures 0 <= i ==> s[i] == c && c !in s[..i]
  {
    if s == [] then -1
    else if s[0] == c then 0
    else
      var j := IndexOf(s[1..], c);
      assert s[1..] == s[..|s|][1..];
      if j == -1 then -1 else (assert s[..j + 1] == [s[0]] + s[1..][..j]; j + 1)
  }

  /** The character after a prefix is the separator that follows it. */
  lemma SeparatorAfter(a: string, b: string, sep: char)
    ensures (a + [sep] + b)[|a|] == sep
  {
  }

  /** A prefix without the separator is no longer than another that ends at the same separator. */
  lemma SeparatorFirst(a: string, b: string, c: string, d: string, sep: char)
    requires sep !in c && a + [sep] + b == c + [sep] + d
    ensures |c| <= |a|
  {
    if |a| < |c| {
      SeparatorAfter(a, b, sep);
    }
  }

  /** Splitting at the first separator is unique: the parts before it and after it are read back. */
  lemma SplitAtFirst(a: string, b: string, c: string, d: string, sep: char)
    requires sep !in a && sep !in c && a + [sep] + b == c + [sep] + d
    ensures a == c && b == d
  {
    SeparatorFirst(a, b, c, d, sep);
    SeparatorFirst(c, d, a, b, sep);
    var s := a + [sep] + b;
    assert a == s[..|a|] && c == s[..|c|];
    assert b == s[|a| + 1..];
  }

  /** `s.lastIndexOf(c)` for a single character: its last position, or -1. */
  function LastIndexOf(s: string, c: char): (i: int)
    ensures -1 <= i < |s|
    ensures i == -1 <==> c !in s
    ensures 0 <= i ==> s[i] == c && c !in s[i + 1..]
  {
    if s == [] then -1
    else if s[|s| - 1] == c then |s| - 1
    else
      var j := LastIndexOf(s[..|s| - 1], c);
      assert s == s[..|s| - 1] + [s[|s| - 1]];
      if j == -1 then -1 else (assert s[j + 1..] == s[..|s| - 1][j + 1..] + [s[|s| - 1]]; j)
  }

  /** `s.indexOf(t) > -1`: `t` occurs in `s` at some position. */
  predicate Contains(s: string, t: string)
  {
    exists i :: 0 <= i <= |s| && StartsWith(s[i..], t)
  }

  /** A string without the first character of `t` does not contain `t`. */
  lemma NotContains(s: string, t: string)
    requires t != [] && t[0] !in s
    ensures !Contains(s, t)
  {
    forall i | 0 <= i <= |s|
      ensures !StartsWith(s[i..], t)
    {
      if i < |s| {
        assert s[i..][0] == s[i];
      }
    }
  }

  /** `s.indexOf(t) == 0`. */
  predicate StartsWith(s: string, t: string)
  {
    |t| <= |s| && s[..|t|] == t
  }

  /** `s.toLowerCase()` on the letters A to Z; other characters are kept. */
  function ToLowerAscii(s: string): (r: string)
    ensures |r| == |s|
    ensures forall i :: 0 <= i < |s| ==> r[i] == if 'A' <= s[i] <= 'Z' then s[i] - 'A' + 'a' else s[i]
  {
    seq(|s|, i requires 0 <= i < |s| => if 'A' <= s[i] <= 'Z' then s[i] - 'A' + 'a' else s[i])
  }

  /** WhiteSpace and LineTerminator code points, the ones `String.prototype.trim` removes. */
  predicate IsSpace(c: char)
  {
    c == '\t' || c == '\n' || c == '\U{B}' || c == '\U{C}' || c == '\r' || c == ' '
    || c == '\U{A0}' || c == '\U{1680}' || ('\U{2000}' <= c <= '\U{200A}')
    || c == '\U{2028}' || c == '\U{2029}' || c == '\U{202F}' || c == '\U{205F}'
    || c == '\U{3000}' || c == '\U{FEFF}'
  }

  predicate AllSpace(t: string)
  {
    forall k :: 0 <= k < |t| ==> IsSpace(t[k])
  }

  /** `s` with its leading white space removed (TrimStartSpaces says what that leaves). */
  function TrimStart(s: string): string
  {
    if s != [] && IsSpace(s[0]) then TrimStart(s[1..]) else s
  }

  /** TrimStart keeps a suffix of `s`; what it removes is white space, and it stops at a
      character that is not. */
  lemma {:induction false} TrimStartSpaces(s: string)
    ensures |TrimStart(s)| <= |s| && TrimStart(s) == s[|s| - |TrimStart(s)|..]
    ensures AllSpace(s[..|s| - |TrimStart(s)|])
    ensures TrimStart(s) == [] || !IsSpace(TrimStart(s)[0])
  {
    if s != [] && IsSpace(s[0]) {
      var r := TrimStart(s[1..]);
      TrimStartSpaces(s[1..]);
      assert s[..|s| - |r|] == [s[0]] + s[1..][..|s| - 1 - |r|];
    }
  }

  /** `s` with its trailing white space removed (TrimEndSpaces says what that leaves). */
  function TrimEnd(s: string): string
  {
    if s != [] && IsSpace(s[|s| - 1]) then TrimEnd(s[..|s| - 1]) else s
  }

  /** TrimEnd keeps a prefix of `s`; what it removes is white space, and it stops at a
      character that is not. */
  lemma {:induction false} TrimEndSpaces(s: string)
    ensures |TrimEnd(s)| <= |s| && TrimEnd(s) == s[..|TrimEnd(s)|]
    ensures AllSpace(s[|TrimEnd(s)|..])
    ensures TrimEnd(s) == [] || !IsSpace(TrimEnd(s)[|TrimEnd(s)| - 1])
  {
    if s != [] && IsSpace(s[|s| - 1]) {
      var r := TrimEnd(s[..|s| - 1]);
      TrimEndSpaces(s[..|s| - 1]);
      assert s[|r|..] == s[..|s| - 1][|r|..] + [s[|s| - 1]];
    }
  }

  /** `s.trim()`: leading and trailing white space removed. */
  function Trim(s: string): string
  {
    TrimEnd(TrimStart(s))
  }

  /** Neither end of `s.trim()` is white space. */
  lemma TrimEnds(s: string)
    ensures Trim(s) == [] || (!IsSpace(Trim(s)[0]) && !IsSpace(Trim(s)[|Trim(s)| - 1]))
  {
    var t := TrimStart(s);
    TrimStartSpaces(s);
    TrimEndSpaces(t);
    assert Trim(s) != [] ==> Trim(s)[0] == t[0];
  }

  /** `r` sits at `i` in `s` with only white space around it. */
  predicate Surrounded(s: string, r: string, i: int)
  {
    0 <= i <= |s| - |r| && r == s[i..i + |r|] && AllSpace(s[..i]) && AllSpace(s[i + |r|..])
  }

  /** `s.trim()` is a piece of `s` with only white space on either side of it. */
  lemma TrimInside(s: string)
    ensures exists i :: Surrounded(s, Trim(s), i)
  {
    var t := TrimStart(s);
    TrimStartSpaces(s);
    var r := TrimEnd(t);
    TrimEndSpaces(t);
    var i := |s| - |t|;
    assert t == s[i..];
    assert r == t[..|r|];
    assert s[i + |r|..] == t[|r|..];
    assert r == s[i..i + |r|];
    assert Trim(s) == r;
    assert Surrounded(s, Trim(s), i);
  }

  /** Trimming twice is trimming once. */
  lemma TrimIdempotent(s: string)
    ensures Trim(Trim(s)) == Trim(s)
  {
    var r := Trim(s);
    TrimEnds(s);
    if r != [] {
      assert TrimStart(r) == r;
      assert TrimEnd(r) == r;
    }
  }

  /** An object mutated in place through property assignment and `delete`. */
  class JsObject {
    var props: seq<Prop>

    constructor (props: seq<Prop>)
      ensures this.props == props
    {
      this.props := props;
    }

    /** `this[k] = v`. */
    method Set(k: string, v: Value)
      modifies this
      ensures props == Put(old(props), k, v)
    {
      props := Put(props, k, v);
    }

    /** `delete this[k]`. */
    method Remove(k: string)
      modifies this
      ensures props == Delete(old(props), k)
    {
      props := Delete(props, k);
    }
  }
}
