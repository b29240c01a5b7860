/**
 The telemetry body built once per cycle: `{ messageTimestamp: Date.now(),
 ...sensors }`, where `sensors` is whatever `JSON.parse` produced from the
 sensor script's output. The model stops at the merged property map;
 serialisation and the message's content type and encoding are not modelled.
 */
module Telemetry {

  /** A value `JSON.parse` can produce. */
  datatype JsValue =
    | Null
    | Bool(b: bool)
    | Num(n: real)
    | Str(s: string)
    | Arr(items: seq<JsValue>)
    | Obj(fields: map<string, JsValue>)

  /**
   `if (sensors)`: null, false, zero and the empty string are falsy; every
   array and object, even an empty one, is truthy.
   */
  predicate Truthy(v: JsValue)
    ensures !Truthy(v) <==> v in {Null, Bool(false), Num(0.0), Str("")}
  {
    match v
    case Null => false
    case Bool(b) => b
    case Num(n) => n != 0.0
    case Str(s) => |s| > 0
    case Arr(_) => true
    case Obj(_) => true
  }

  /** The name of the timestamp property. */
  const TimestampKey := "messageTimestamp"

  /** The decimal digit for `d`. */
  function Digit(d: nat): (c: char)
    requires d < 10
    ensures '0' <= c <= '9'
  {
    "0123456789"[d]
  }

  /** The canonical property name of array or string index `n`: its decimal numeral. */
  function IndexKey(n: nat): (k: string)
    ensures 1 <= |k| && (n < 10 <==> |k| == 1)
    ensures forall i :: 0 <= i < |k| ==> '0' <= k[i] <= '9'
    decreases n
  {
    if n < 10 then [Digit(n)] else IndexKey(n / 10) + [Digit(n % 10)]
  }

  /** The number a string of decimal digits denotes, most significant digit first. */
  function NumeralValue(k: string): nat
    requires forall i :: 0 <= i < |k| ==> '0' <= k[i] <= '9'
    decreases |k|
  {
    if |k| == 0 then 0
    else NumeralValue(k[..|k| - 1]) * 10 + ((k[|k| - 1] as int) - ('0' as int))
  }

  /** The digit for `d` denotes `d`. */
  lemma DigitValue(d: nat)
    requires d < 10
    ensures (Digit(d) as int) - ('0' as int) == d
  {
  }

  /**
   The property name of index `n` is its decimal numeral: it denotes `n`, and
   only the name of index 0 starts with the digit zero.
   */
  lemma {:induction false} IndexKeyValue(n: nat)
    ensures NumeralValue(IndexKey(n)) == n
    ensures IndexKey(n)[0] == '0' <==> n == 0
    decreases n
  {
    var k := IndexKey(n);
    if n < 10 {
      DigitValue(n);
      assert k[..0] == [];
    } else {
      IndexKeyValue(n / 10);
      DigitValue(n % 10);
      assert k[..|k| - 1] == IndexKey(n / 10);
    }
  }

  /** Different indices have different property names. */
  lemma {:induction false} IndexKeyInjective(m: nat, n: nat)
    requires IndexKey(m) == IndexKey(n)
    ensures m == n
    decreases m
  {
    if m >= 10 && n >= 10 {
      var km, kn := IndexKey(m), IndexKey(n);
      assert km[|km| - 1] == Digit(m % 10) && kn[|kn| - 1] == Digit(n % 10);
      assert km[..|km| - 1] == IndexKey(m / 10);
      assert kn[..|kn| - 1] == IndexKey(n / 10);
      IndexKeyInjective(m / 10, n / 10);
    }
  }

  /** The index names below `n`. */
  function IndexKeys(n: nat): set<string> {
    set i | 0 <= i < n :: IndexKey(i)
  }

  /** The index names below `n` are pairwise different. */
  lemma IndexKeysDistinct(n: nat)
    ensures forall i, j :: 0 <= i < n && 0 <= j < n && IndexKey(i) == IndexKey(j) ==> i == j
  {
    forall i, j | 0 <= i < n && 0 <= j < n && IndexKey(i) == IndexKey(j) ensures i == j {
      IndexKeyInjective(i, j);
    }
  }

  /** The own enumerable properties of an array-like value: index `i` names `vals[i]`. */
  function Indexed(vals: seq<JsValue>): map<string, JsValue> {
    IndexKeysDistinct(|vals|);
    map i | 0 <= i < |vals| :: IndexKey(i) := vals[i]
  }

  /** An array-like value has exactly its index names as keys, each naming its element. */
  lemma IndexedEntries(vals: seq<JsValue>)
    ensures Indexed(vals).Keys == IndexKeys(|vals|)
    ensures forall i :: 0 <= i < |vals| ==> Indexed(vals)[IndexKey(i)] == vals[i]
  {
    var m := Indexed(vals);
    IndexKeysDistinct(|vals|);
    assert m.Keys == IndexKeys(|vals|);
    forall i | 0 <= i < |vals| ensures m[IndexKey(i)] == vals[i] {
      assert IndexKey(i) in m;
    }
  }

  /** The characters of a string as one-character strings. */
  function Chars(s: string): (vals: seq<JsValue>)
    ensures |vals| == |s| && forall i :: 0 <= i < |s| ==> vals[i] == Str([s[i]])
  {
    seq(|s|, i requires 0 <= i < |s| => Str([s[i]]))
  }

  /**
   The properties a spread `...v` copies: an object's own fields, an array's
   elements and a string's characters under their index names, and nothing
   for null, booleans and numbers.
   */
  function OwnEntries(v: JsValue): (m: map<string, JsValue>)
    ensures v.Obj? ==> m == v.fields
    ensures v.Null? || v.Bool? || v.Num? ==> m == map[]
    ensures v.Arr? ==> m.Keys == IndexKeys(|v.items|) && forall i :: 0 <= i < |v.items| ==> m[IndexKey(i)] == v.items[i]
    ensures v.Str? ==> m.Keys == IndexKeys(|v.s|) && forall i :: 0 <= i < |v.s| ==> m[IndexKey(i)] == Str([v.s[i]])
  {
    match v
    case Obj(fields) => fields
    case Arr(items) => IndexedEntries(items); Indexed(items)
    case Str(s) => IndexedEntries(Chars(s)); Indexed(Chars(s))
    case _ => map[]
  }

  /**
   `{ messageTimestamp: now, ...sensors }`: the timestamp is written first and
   the spread second, so every copied property is present with its value,
   including one named `messageTimestamp`, and the timestamp survives only
   when the reading has no property of that name.
   */
  function Body(now: int, sensors: JsValue): (body: map<string, JsValue>)
    ensures body.Keys == OwnEntries(sensors).Keys + {TimestampKey}
    ensures forall k :: k in OwnEntries(sensors) ==> body[k] == OwnEntries(sensors)[k]
    ensures TimestampKey !in OwnEntries(sensors) ==> body[TimestampKey] == Num(now as real)
  {
    map[TimestampKey := Num(now as real)] + OwnEntries(sensors)
  }

  /** A reading without a `messageTimestamp` property leaves the clock value in the body. */
  lemma TimestampKept(now: int, sensors: JsValue)
    requires TimestampKey !in OwnEntries(sensors)
    ensures Body(now, sensors)[TimestampKey] == Num(now as real)
  {
  }

  /** A reading with a `messageTimestamp` property replaces the clock value with its own. */
  lemma TimestampOverridden(now: int, fields: map<string, JsValue>)
    requires TimestampKey in fields
    ensures Body(now, Obj(fields))[TimestampKey] == fields[TimestampKey]
    ensures Body(now, Obj(fields)) == fields
  {
  }

  /**
   A reading of temperature and pressure at time `now` gives a body with
   exactly the timestamp and the two readings.
   */
  lemma TwoReadings(now: int, temperature: real, pressure: real)
    ensures Body(now, Obj(map["temperatureC" := Num(temperature), "pressureHpa" := Num(pressure)]))
         == map[TimestampKey := Num(now as real), "temperatureC" := Num(temperature), "pressureHpa" := Num(pressure)]
  {
  }

  /**
   Spreading a string copies one property per character, named by index,
   and never touches the timestamp, whose name is not a numeral.
   */
  lemma StringSpread(now: int, s: string)
    ensures Body(now, Str(s)).Keys == IndexKeys(|s|) + {TimestampKey}
    ensures Body(now, Str(s))[TimestampKey] == Num(now as real)
  {
    var own := OwnEntries(Str(s));
    forall i | 0 <= i < |s| ensures IndexKey(i) != TimestampKey {
      assert TimestampKey[0] == 'm';
    }
  }
}
