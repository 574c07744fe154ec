/** JSON values as stored in the `aiAnalysis` and `jobMatch` columns and as
    produced by `JSON.parse`. Objects are maps: member order carries no
    meaning in a JSON object (section 4 of RFC 8259), so the model does not
    track it. */
module JsonValues {

  datatype Json =
    | JNull
    | JBool(b: bool)
    | JNumber(n: real)
    | JString(s: string)
    | JArray(items: seq<Json>)
    | JObject(fields: map<string, Json>)

  /** Decimal spelling of a natural number, as JavaScript writes array indices:
      a single digit below ten, and the last digit is always `n % 10`. */
  function DecimalString(n: nat): (r: string)
    ensures |r| > 0
    ensures forall k :: 0 <= k < |r| ==> '0' <= r[k] <= '9'
    ensures |r| == 1 <==> n < 10
    ensures r[|r| - 1] as int == '0' as int + n % 10
  {
    var d := ['0' + (n % 10) as char];
    if n < 10 then d else DecimalString(n / 10) + d
  }

  /** Distinct indices get distinct keys, so no array element hides another. */
  lemma {:induction false} DecimalStringInjective(m: nat, n: nat)
    requires DecimalString(m) == DecimalString(n)
    ensures m == n
    decreases m
  {
    var a, b := DecimalString(m), DecimalString(n);
    assert m % 10 == n % 10;
    if 10 <= m {
      assert a[..|a| - 1] == DecimalString(m / 10);
      assert b[..|b| - 1] == DecimalString(n / 10);
      DecimalStringInjective(m / 10, n / 10);
    }
  }

  /** The index-keyed entries `{"0": items[0], "1": items[1], ...}`: one key
      per index, holding the element at that index, and no other key. */
  function IndexEntries(items: seq<Json>): (r: map<string, Json>)
    ensures forall k :: 0 <= k < |items| ==> DecimalString(k) in r && r[DecimalString(k)] == items[k]
    ensures forall key :: key in r ==> exists k :: 0 <= k < |items| && key == DecimalString(k)
  {
    forall m, n | 0 <= m < |items| && 0 <= n < |items| && DecimalString(m) == DecimalString(n)
      ensures m == n
    {
      DecimalStringInjective(m, n);
    }
    map k | 0 <= k < |items| :: DecimalString(k) := items[k]
  }

  /** The entries spread out of a string: one single-character string per
      index, and no other key. */
  function CharEntries(s: string): (r: map<string, Json>)
    ensures forall k :: 0 <= k < |s| ==> DecimalString(k) in r && r[DecimalString(k)] == JString([s[k]])
    ensures forall key :: key in r ==> exists k :: 0 <= k < |s| && key == DecimalString(k)
  {
    var chars := seq(|s|, k requires 0 <= k < |s| => JString([s[k]]));
    assert forall k :: 0 <= k < |s| ==> chars[k] == JString([s[k]]);
    IndexEntries(chars)
  }

  /** The entries that object spread `{...v}` copies out of `v`: an object's
      own fields, an array's or a string's index-keyed elements, and nothing
      for `null`, booleans and numbers. */
  function SpreadEntries(v: Json): (r: map<string, Json>)
    ensures v.JObject? ==> r == v.fields
    ensures v.JArray? ==>
              && (forall k :: 0 <= k < |v.items| ==> DecimalString(k) in r && r[DecimalString(k)] == v.items[k])
              && (forall key :: key in r ==> exists k :: 0 <= k < |v.items| && key == DecimalString(k))
    ensures v.JString? ==>
              && (forall k :: 0 <= k < |v.s| ==> DecimalString(k) in r && r[DecimalString(k)] == JString([v.s[k]]))
              && (forall key :: key in r ==> exists k :: 0 <= k < |v.s| && key == DecimalString(k))
    ensures v.JNull? || v.JBool? || v.JNumber? ==> r == map[]
  {
    match v
    case JObject(fields) => fields
    case JArray(items) => IndexEntries(items)
    case JString(s) => CharEntries(s)
    case _ => map[]
  }
}
