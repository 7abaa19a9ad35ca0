/**
 * The slice of JavaScript value semantics the pages rely on: parsed JSON
 * values, truthiness, property access (which throws on `null`),
 * `Object.values`, and `String.prototype.trim`.
 */
module Js {
  import opened Wrappers

  /**
   * A value produced by `JSON.parse`. Numbers keep only an integer stand-in,
   * which decides truthiness but not how a fractional number prints.
   * Object members are kept as written, repeated names included; `Members`
   * builds the object `JSON.parse` would make of them.
   */
  datatype Json =
    | JNull
    | JBool(b: bool)
    | JNumber(n: int)
    | JString(s: string)
    | JArray(items: seq<Json>)
    | JObject(fields: seq<(string, Json)>)

  /** JavaScript truthiness of a parsed value. */
  predicate Truthy(v: Json) {
    match v
    case JNull => false
    case JBool(b) => b
    case JNumber(n) => n != 0
    case JString(s) => |s| > 0
    case JArray(_) => true
    case JObject(_) => true
  }

  /** Outcome of reading `v.name`: a `TypeError`, `undefined`, or a value. */
  datatype Access = Throws | Undefined | Found(value: Json)

  /** The value of the last member named `name` (as `JSON.parse` keeps the last duplicate). */
  function Lookup(fields: seq<(string, Json)>, name: string): (r: Option<Json>)
    ensures r.Some? <==> exists i :: 0 <= i < |fields| && fields[i].0 == name
    ensures r.Some? ==> exists i :: 0 <= i < |fields| && fields[i] == (name, r.value)
  {
    if |fields| == 0 then None
    else if fields[|fields| - 1].0 == name then Some(fields[|fields| - 1].1)
    else Lookup(fields[..|fields| - 1], name)
  }

  /** Property access `v[name]` for a name that is not an array index. */
  function Member(v: Json, name: string): (a: Access)
    ensures a.Throws? <==> v.JNull?
    ensures a.Found? ==> v.JObject?
  {
    match v
    case JNull => Throws
    case JObject(fields) =>
      (match Lookup(fields, name)
       case Some(x) => Found(x)
       case None => Undefined)
    case _ => Undefined
  }

  /** Member names are pairwise distinct, as in a built object. */
  predicate DistinctNames(members: seq<(string, Json)>) {
    forall i, j :: 0 <= i < j < |members| ==> members[i].0 != members[j].0
  }

  /** The position of the member called `name`, if there is one. */
  function FindName(members: seq<(string, Json)>, name: string): (r: Option<nat>)
    ensures r.Some? ==> r.value < |members| && members[r.value].0 == name
    ensures r.None? ==> forall i :: 0 <= i < |members| ==> members[i].0 != name
  {
    if |members| == 0 then None
    else if members[|members| - 1].0 == name then Some(|members| - 1)
    else FindName(members[..|members| - 1], name)
  }

  /**
   * The own properties of the object `JSON.parse` builds from the members
   * as written: each member is assigned in turn, so a repeated name keeps
   * the position of its first occurrence and takes its last value.
   */
  function Members(fields: seq<(string, Json)>): (r: seq<(string, Json)>)
    ensures |r| <= |fields|
  {
    if |fields| == 0 then []
    else
      var n := |fields| - 1;
      var rest := Members(fields[..n]);
      match FindName(rest, fields[n].0)
      case Some(j) => rest[j := fields[n]]
      case None => rest + [fields[n]]
  }

  /** The last member decides the lookup of its own name and leaves the others alone. */
  lemma LookupLast(fields: seq<(string, Json)>)
    requires |fields| > 0
    ensures Lookup(fields, fields[|fields| - 1].0) == Some(fields[|fields| - 1].1)
    ensures forall x :: x != fields[|fields| - 1].0 ==> Lookup(fields, x) == Lookup(fields[..|fields| - 1], x)
  {
  }

  /** A built object never has two members with one name. */
  lemma {:induction false} MembersDistinct(fields: seq<(string, Json)>)
    ensures DistinctNames(Members(fields))
    decreases |fields|
  {
    if |fields| > 0 {
      var n := |fields| - 1;
      var rest := Members(fields[..n]);
      MembersDistinct(fields[..n]);
      match FindName(rest, fields[n].0)
      case Some(j) =>
        assert forall i :: 0 <= i < |rest| ==> rest[j := fields[n]][i].0 == rest[i].0;
      case None =>
    }
  }

  /** Each member holds the value `Lookup` finds for its name. */
  lemma {:induction false} MembersLookup(fields: seq<(string, Json)>)
    ensures forall i :: 0 <= i < |Members(fields)| ==> Lookup(fields, Members(fields)[i].0) == Some(Members(fields)[i].1)
    decreases |fields|
  {
    if |fields| > 0 {
      var n := |fields| - 1;
      var rest := Members(fields[..n]);
      MembersLookup(fields[..n]);
      MembersDistinct(fields[..n]);
      LookupLast(fields);
    }
  }

  /** Every name `Lookup` finds is a member, holding the value found. */
  lemma {:induction false} MembersCover(fields: seq<(string, Json)>, name: string)
    requires Lookup(fields, name).Some?
    ensures (name, Lookup(fields, name).value) in Members(fields)
    decreases |fields|
  {
    var n := |fields| - 1;
    var rest := Members(fields[..n]);
    LookupLast(fields);
    if name != fields[n].0 {
      MembersCover(fields[..n], name);
      var k :| 0 <= k < |rest| && rest[k] == (name, Lookup(fields, name).value);
      match FindName(rest, fields[n].0)
      case Some(j) =>
        assert Members(fields)[k] == rest[k];
      case None =>
        assert Members(fields)[k] == rest[k];
    } else {
      match FindName(rest, fields[n].0)
      case Some(j) =>
        assert Members(fields)[j] == fields[n];
      case None =>
        assert Members(fields)[|rest|] == fields[n];
    }
  }

  /** The values of a built object's own properties, in property order. */
  function MemberValues(fields: seq<(string, Json)>): (values: seq<Json>)
    ensures |values| <= |fields|
  {
    var m := Members(fields);
    seq(|m|, i requires 0 <= i < |m| => m[i].1)
  }

  /** The values are exactly what `Lookup` finds under some name: a shadowed duplicate is gone. */
  lemma MemberValuesExact(fields: seq<(string, Json)>, x: Json)
    ensures x in MemberValues(fields) <==> exists name :: Lookup(fields, name) == Some(x)
  {
    var m := Members(fields);
    var values := MemberValues(fields);
    if x in values {
      var j :| 0 <= j < |values| && values[j] == x;
      MembersLookup(fields);
      assert Lookup(fields, m[j].0) == Some(x);
    }
    if exists name :: Lookup(fields, name) == Some(x) {
      var name :| Lookup(fields, name) == Some(x);
      MembersCover(fields, name);
      var j :| 0 <= j < |m| && m[j] == (name, x);
      assert values[j] == x;
    }
  }

  /** `Object.values(v)`; `None` is the `TypeError` raised for `null`. */
  function ObjectValues(v: Json): (r: Option<seq<Json>>)
    ensures r.None? <==> v.JNull?
    ensures v.JArray? ==> r == Some(v.items)
    ensures v.JObject? ==> r == Some(MemberValues(v.fields))
    ensures (v.JBool? || v.JNumber?) ==> r == Some([])
  {
    match v
    case JNull => None
    case JBool(_) => Some([])
    case JNumber(_) => Some([])
    case JString(s) => Some(seq(|s|, i requires 0 <= i < |s| => JString([s[i]])))
    case JArray(items) => Some(items)
    case JObject(fields) => Some(MemberValues(fields))
  }

  /** A repeated member name hides its earlier value: `{"a": null, "a": true}` has the one value `true`. */
  lemma DuplicateNameKeepsLast()
    ensures ObjectValues(JObject([("a", JNull), ("a", JBool(true))])) == Some([JBool(true)])
  {
    var fields := [("a", JNull), ("a", JBool(true))];
    assert fields[..1] == [("a", JNull)];
    assert Members(fields[..1][..0]) == [];
    assert FindName([], "a") == None;
    assert Members(fields[..1]) == [("a", JNull)];
    assert FindName([("a", JNull)], "a") == Some(0);
    assert Members(fields) == [("a", JBool(true))];
    assert MemberValues(fields) == [JBool(true)];
  }

  /**
   * The names every object literal inherits from `Object.prototype`. Reading
   * one of them from a plain object finds the inherited function (or, for
   * `__proto__`, the prototype itself) rather than `undefined`.
   */
  const PrototypeMembers: set<string> := {
    "constructor", "hasOwnProperty", "isPrototypeOf", "propertyIsEnumerable",
    "toLocaleString", "toString", "valueOf", "__proto__",
    "__defineGetter__", "__defineSetter__", "__lookupGetter__", "__lookupSetter__"
  }

  /** The code points `String.prototype.trim` strips: ECMAScript WhiteSpace and LineTerminator. */
  predicate IsWhitespace(c: char) {
    || c == '\t' || c == '\n' || c == '\U{000B}' || c == '\U{000C}' || c == '\r'
    || c == ' ' || c == '\U{00A0}' || c == '\U{1680}'
    || ('\U{2000}' <= c <= '\U{200A}')
    || c == '\U{2028}' || c == '\U{2029}' || c == '\U{202F}' || c == '\U{205F}'
    || c == '\U{3000}' || c == '\U{FEFF}'
  }

  predicate AllWhitespace(s: string) {
    forall i :: 0 <= i < |s| ==> IsWhitespace(s[i])
  }

  /** The number of leading whitespace code points of `s`. */
  function LeadingSpace(s: string): (k: nat)
    ensures k <= |s|
    ensures forall i :: 0 <= i < k ==> IsWhitespace(s[i])
    ensures k < |s| ==> !IsWhitespace(s[k])
  {
    if |s| > 0 && IsWhitespace(s[0]) then 1 + LeadingSpace(s[1..]) else 0
  }

  /** The length of `s` once its trailing whitespace is removed. */
  function TrailingStart(s: string): (k: nat)
    ensures k <= |s|
    ensures forall i :: k <= i < |s| ==> IsWhitespace(s[i])
    ensures k > 0 ==> !IsWhitespace(s[k - 1])
  {
    if |s| > 0 && IsWhitespace(s[|s| - 1]) then TrailingStart(s[..|s| - 1]) else |s|
  }

  /** `s.trim()`: `s` without its leading and trailing whitespace. */
  function Trim(s: string): (r: string)
    ensures exists i, j :: 0 <= i <= j <= |s| && r == s[i..j]
                           && (forall x :: 0 <= x < i ==> IsWhitespace(s[x]))
                           && (forall x :: j <= x < |s| ==> IsWhitespace(s[x]))
    ensures |r| > 0 ==> !IsWhitespace(r[0]) && !IsWhitespace(r[|r| - 1])
  {
    var i := LeadingSpace(s);
    var t := s[i..];
    var k := TrailingStart(t);
    assert t[..k] == s[i..i + k];
    assert forall x :: i + k <= x < |s| ==> s[x] == t[x - i];
    t[..k]
  }

  /** Trimming leaves nothing exactly when the string is all whitespace. */
  lemma TrimEmptyIffBlank(s: string)
    ensures Trim(s) == "" <==> AllWhitespace(s)
  {
    var r := Trim(s);
    var i, j :| 0 <= i <= j <= |s| && r == s[i..j]
                && (forall x :: 0 <= x < i ==> IsWhitespace(s[x]))
                && (forall x :: j <= x < |s| ==> IsWhitespace(s[x]));
    if r != "" {
      assert s[i] == r[0];
    }
  }
}
