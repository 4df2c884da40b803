/**
 Carrying a trace context inside a JSON payload.

 Injection rewrites the payload through a map, so the object that comes out has each
 key once, in byte order. Extraction decodes into a struct field, which any spelling of
 the key that differs in letter case also matches; the values found are merged in
 document order. The round trip is therefore exact only when no differently spelled
 key leaves something behind (`ExtractAfterInject`).
 */
module TraceContext {
  import opened Wrappers
  import opened Json

  // The W3C headers: traceparent and, when there is one, tracestate.
  type Carrier = map<string, string>

  const KEY := "trace_context"

  datatype Bytes = NotJson(raw: string) | JsonText(value: Value)

  function Encode(carrier: Carrier): Value {
    Obj(map k | k in carrier :: Str(carrier[k]))
  }

  // ----- Injection -------------------------------------------------------------

  function Injected(carrier: Carrier, payload: Bytes): (out: Bytes)
    ensures !(payload.JsonText? && payload.value.Obj?) ==> out == payload
    ensures payload.JsonText? && payload.value.Obj? ==>
      && out.JsonText? && out.value.Obj?
      && out.value.fields - {KEY} == payload.value.fields - {KEY}
      && (carrier == map[] ==> out == payload)
      && (carrier != map[] ==> KEY in out.value.fields && out.value.fields[KEY] == Encode(carrier))
  {
    if carrier == map[] || payload.NotJson? || !payload.value.Obj? then payload
    else JsonText(Obj(payload.value.fields[KEY := Encode(carrier)]))
  }

  /** `carrier` is what the propagator wrote for the caller's span: empty without one. */
  method InjectTraceContext(carrier: Carrier, payload: Bytes) returns (out: Bytes)
    ensures out == Injected(carrier, payload)
  {
    if |carrier| == 0 {
      return payload;
    }
    if payload.NotJson? || !payload.value.Obj? {
      return payload;
    }
    var fields := payload.value.fields;
    var encoded := Encode(carrier);
    fields := fields[KEY := encoded];
    out := JsonText(Obj(fields));
  }

  // ----- Extraction ------------------------------------------------------------

  function LowerChar(c: char): char {
    if 'A' <= c <= 'Z' then (c as int + 32) as char else c
  }

  function Lower(s: string): string {
    seq(|s|, i requires 0 <= i < |s| => LowerChar(s[i]))
  }

  predicate MatchesKey(k: string) {
    Lower(k) == KEY
  }

  /** The spellings the decoder takes for the key: each letter in either case, the underscore as it is. */
  lemma SpellingsOfTheKey(k: string)
    ensures MatchesKey(k) <==>
            |k| == |"trace_context"| &&
            forall i :: 0 <= i < |k| ==> k[i] == "trace_context"[i] || k[i] == "TRACE_CONTEXT"[i]
  {
    var lower, upper := "trace_context", "TRACE_CONTEXT";
    assert |lower| == |upper| == 13;
    assert forall i :: 0 <= i < 13 ==> LowerChar(lower[i]) == LowerChar(upper[i]) == lower[i];
    if |k| == 13 {
      if MatchesKey(k) {
        assert forall i :: 0 <= i < 13 ==> LowerChar(k[i]) == Lower(k)[i] == lower[i];
      } else {
        assert Lower(k) != lower;
      }
    } else {
      assert |Lower(k)| != 13;
    }
  }

  predicate AllText(fields: map<string, Value>) {
    forall k :: k in fields ==> fields[k].Str? || fields[k].Null?
  }

  function TextOf(v: Value): string {
    if v.Str? then v.s else ""
  }

  // One more JSON value decoded into a map[string]string; None once any value failed.
  function DecodeInto(acc: Option<Carrier>, v: Value): Option<Carrier> {
    if acc.None? then None
    else
      match v
      case Null => Some(map[])
      case Obj(fields) =>
        if AllText(fields) then Some(acc.value + map k | k in fields :: TextOf(fields[k])) else None
      case Bool(_) => None
      case Num(_) => None
      case Str(_) => None
      case Arr(_) => None
  }

  // Every matching key among `keys`, in that order; `exact` says whether KEY itself counts.
  function DecodeKeys(fields: map<string, Value>, keys: seq<string>, exact: bool): Option<Carrier>
    requires forall k :: k in keys ==> k in fields
  {
    if keys == [] then Some(map[])
    else
      var before, last := keys[..|keys| - 1], keys[|keys| - 1];
      assert last in keys;
      var acc := DecodeKeys(fields, before, exact);
      if MatchesKey(last) && (exact || last != KEY) then DecodeInto(acc, fields[last]) else acc
  }

  /** The context handed to the propagator, or None for the caller's own context. */
  function Extracted(payload: Bytes, keys: seq<string>): Option<Carrier>
    requires payload.JsonText? && payload.value.Obj? ==> forall k :: k in keys ==> k in payload.value.fields
  {
    if payload.NotJson? || !payload.value.Obj? then None
    else
      var found := DecodeKeys(payload.value.fields, keys, true);
      if found.None? || found.value == map[] then None else found
  }

  // ----- Document order --------------------------------------------------------

  predicate Before(a: string, b: string) {
    b != "" && (a == "" || a[0] < b[0] || (a[0] == b[0] && Before(a[1..], b[1..])))
  }

  // The keys of an object written by json.Marshal from a map: each once, in byte order.
  ghost predicate DocumentOrder(keys: seq<string>, fields: map<string, Value>) {
    && (forall k :: k in keys <==> k in fields)
    && (forall i, j :: 0 <= i < j < |keys| ==> keys[i] != keys[j] && Before(keys[i], keys[j]))
  }

  lemma {:induction false} BeforeIsAsymmetric(a: string, b: string)
    requires Before(a, b)
    ensures !Before(b, a)
  {
    if a != "" && a[0] == b[0] {
      BeforeIsAsymmetric(a[1..], b[1..]);
    }
  }

  lemma {:induction false} LowerIsLast(a: string)
    requires Lower(a) != a
    ensures Before(a, Lower(a))
  {
    var l := Lower(a);
    assert l[1..] == Lower(a[1..]);
    if a[0] == l[0] {
      assert a == [a[0]] + a[1..] && l == [l[0]] + l[1..];
      LowerIsLast(a[1..]);
    }
  }

  /** In document order every other spelling of the key comes before the key itself. */
  lemma OtherSpellingsComeFirst(keys: seq<string>, fields: map<string, Value>, i: nat, p: nat)
    requires DocumentOrder(keys, fields) && i < |keys| && p < |keys|
    requires MatchesKey(keys[i]) && keys[p] == KEY
    ensures i <= p
  {
    if p < i {
      LowerIsLast(keys[i]);
      BeforeIsAsymmetric(keys[i], KEY);
    }
  }

  // ----- The round trip --------------------------------------------------------

  lemma {:induction false} DecodeIgnoresKeyUpTo(f: map<string, Value>, v: Value, keys: seq<string>)
    requires KEY !in keys && forall k :: k in keys ==> k in f
    ensures DecodeKeys(f[KEY := v], keys, true) == DecodeKeys(f, keys, false)
  {
    if keys == [] {
    } else {
      DecodeIgnoresKeyUpTo(f, v, keys[..|keys| - 1]);
    }
  }

  lemma {:induction false} DecodeStopsAt(f: map<string, Value>, keys: seq<string>, n: nat, exact: bool)
    requires n <= |keys| && forall k :: k in keys ==> k in f
    requires forall i :: n <= i < |keys| ==> !MatchesKey(keys[i]) || (!exact && keys[i] == KEY)
    ensures DecodeKeys(f, keys, exact) == DecodeKeys(f, keys[..n], exact)
    decreases |keys|
  {
    if n == |keys| {
      assert keys[..n] == keys;
    } else {
      var before := keys[..|keys| - 1];
      assert before[..n] == keys[..n];
      DecodeStopsAt(f, before, n, exact);
    }
  }

  // What differently spelled keys of the payload would contribute.
  function Strays(fields: map<string, Value>, keys: seq<string>): Option<Carrier>
    requires forall k :: k in keys ==> k in fields
  {
    DecodeKeys(fields, keys, false)
  }

  lemma KeyIsLower()
    ensures MatchesKey(KEY)
  {
    assert |KEY| == 13;
    assert forall i :: 0 <= i < 13 ==> LowerChar(KEY[i]) == KEY[i];
  }

  lemma EncodedCarrier(acc: Carrier, carrier: Carrier)
    ensures DecodeInto(Some(acc), Encode(carrier)) == Some(acc + carrier)
  {
    var fields := Encode(carrier).fields;
    assert (map k | k in fields :: TextOf(fields[k])) == carrier;
  }

  lemma DecodeAfterInject(carrier: Carrier, f: map<string, Value>, keys: seq<string>)
    requires DocumentOrder(keys, f[KEY := Encode(carrier)])
    ensures var injected := f[KEY := Encode(carrier)];
            var strays := Strays(injected, keys);
            DecodeKeys(injected, keys, true) == if strays.None? then None else Some(strays.value + carrier)
  {
    var injected := f[KEY := Encode(carrier)];
    KeyIsLower();
    assert KEY in keys;
    var p :| 0 <= p < |keys| && keys[p] == KEY;
    forall i | p < i < |keys|
      ensures !MatchesKey(keys[i])
    {
      if MatchesKey(keys[i]) {
        OtherSpellingsComeFirst(keys, injected, i, p);
      }
    }
    DecodeStopsAt(injected, keys, p + 1, true);
    DecodeStopsAt(injected, keys, p, false);
    var head := keys[..p];
    assert keys[..p + 1][..p] == head;
    assert KEY !in head;
    DecodeIgnoresKeyUpTo(injected, Encode(carrier), head);
    assert injected[KEY := Encode(carrier)] == injected;
    var strays := Strays(injected, keys);
    if strays.Some? {
      EncodedCarrier(strays.value, carrier);
    }
  }

  /**
   Extracting what was injected gives it back exactly when every other spelling of the
   key decodes and adds no entry of its own.
   */
  lemma ExtractAfterInject(carrier: Carrier, f: map<string, Value>, keys: seq<string>)
    requires carrier != map[]
    requires DocumentOrder(keys, f[KEY := Encode(carrier)])
    ensures var strays := Strays(f[KEY := Encode(carrier)], keys);
            Extracted(Injected(carrier, JsonText(Obj(f))), keys) == Some(carrier) <==>
            strays.Some? && strays.value.Keys <= carrier.Keys
  {
    DecodeAfterInject(carrier, f, keys);
    var strays := Strays(f[KEY := Encode(carrier)], keys);
    if strays.Some? {
      var merged := strays.value + carrier;
      assert merged.Keys == strays.value.Keys + carrier.Keys;
      assert merged != map[] by { assert carrier.Keys != {}; }
      if strays.value.Keys <= carrier.Keys {
        assert merged == carrier;
      }
    }
  }

  // ----- What differently spelled keys contribute, exactly -----------------------------

  predicate Stray(k: string) {
    MatchesKey(k) && k != KEY
  }

  // A value a map[string]string takes: null, or an object of strings and nulls.
  predicate Decodable(v: Value) {
    v.Null? || (v.Obj? && forall name :: name in v.fields ==> v.fields[name].Str? || v.fields[name].Null?)
  }

  // The stray at i has this entry, and no later stray is a null, which empties the map.
  ghost predicate Contributes(fields: map<string, Value>, keys: seq<string>, i: nat, name: string)
    requires forall k :: k in keys ==> k in fields
  {
    && i < |keys| && Stray(keys[i])
    && fields[keys[i]].Obj? && name in fields[keys[i]].fields
    && forall j :: i < j < |keys| && Stray(keys[j]) ==> !fields[keys[j]].Null?
  }

  lemma {:induction false} StraysDecode(fields: map<string, Value>, keys: seq<string>)
    requires forall k :: k in keys ==> k in fields
    ensures Strays(fields, keys).Some? <==> forall i :: 0 <= i < |keys| && Stray(keys[i]) ==> Decodable(fields[keys[i]])
  {
    if keys == [] {
    } else {
      var before := keys[..|keys| - 1];
      StraysDecode(fields, before);
      assert forall i :: 0 <= i < |before| ==> keys[i] == before[i];
    }
  }

  lemma {:induction false} StrayNames(fields: map<string, Value>, keys: seq<string>, name: string)
    requires forall k :: k in keys ==> k in fields
    requires Strays(fields, keys).Some?
    ensures name in Strays(fields, keys).value <==> exists i :: Contributes(fields, keys, i, name)
  {
    if keys == [] {
    } else {
      var before, n := keys[..|keys| - 1], |keys| - 1;
      StrayNames(fields, before, name);
      if Stray(keys[n]) && fields[keys[n]].Null? {
        assert !exists i :: Contributes(fields, keys, i, name);
      } else {
        forall i: nat | i < n
          ensures Contributes(fields, keys, i, name) <==> Contributes(fields, before, i, name)
        {
          assert keys[i] == before[i];
          assert forall j :: i < j < n ==> keys[j] == before[j];
        }
        LastStray(fields, keys, name);
      }
    }
  }

  lemma LastStray(fields: map<string, Value>, keys: seq<string>, name: string)
    requires keys != [] && (forall k :: k in keys ==> k in fields)
    requires Strays(fields, keys).Some?
    requires !(Stray(keys[|keys| - 1]) && fields[keys[|keys| - 1]].Null?)
    ensures Strays(fields, keys[..|keys| - 1]).Some?
    ensures name in Strays(fields, keys).value <==>
            name in Strays(fields, keys[..|keys| - 1]).value || Contributes(fields, keys, |keys| - 1, name)
  {
  }

  /**
   The round trip, by the payload alone: it is exact when every other spelling of the key holds
   null or an object of strings and nulls, and names nothing after the last null that the
   carrier does not name as well; and only then.
   */
  lemma RoundTripExactly(carrier: Carrier, f: map<string, Value>, keys: seq<string>)
    requires carrier != map[]
    requires DocumentOrder(keys, f[KEY := Encode(carrier)])
    ensures var injected := f[KEY := Encode(carrier)];
            Extracted(Injected(carrier, JsonText(Obj(f))), keys) == Some(carrier) <==>
            && (forall i :: 0 <= i < |keys| && Stray(keys[i]) ==> Decodable(injected[keys[i]]))
            && (forall i: nat, name :: Contributes(injected, keys, i, name) ==> name in carrier)
  {
    var injected := f[KEY := Encode(carrier)];
    ExtractAfterInject(carrier, f, keys);
    StraysDecode(injected, keys);
    if Strays(injected, keys).Some? {
      forall name
        ensures name in Strays(injected, keys).value <==> exists i :: Contributes(injected, keys, i, name)
      {
        StrayNames(injected, keys, name);
      }
    }
  }

  /** Nothing is extracted from what is not a JSON object, nor from an object without the key in any spelling. */
  lemma NothingToExtract(payload: Bytes, keys: seq<string>)
    requires payload.JsonText? && payload.value.Obj? ==> forall k :: k in keys ==> k in payload.value.fields
    ensures !(payload.JsonText? && payload.value.Obj?) ==> Extracted(payload, keys) == None
    ensures (forall i :: 0 <= i < |keys| ==> !MatchesKey(keys[i])) ==> Extracted(payload, keys) == None
    ensures Extracted(payload, keys) != Some(map[])
  {
    if payload.JsonText? && payload.value.Obj? && forall i :: 0 <= i < |keys| ==> !MatchesKey(keys[i]) {
      DecodeStopsAt(payload.value.fields, keys, 0, true);
    }
  }

  /** So it does for every payload whose only spelling of the key is the reserved one. */
  lemma RoundTrip(carrier: Carrier, f: map<string, Value>, keys: seq<string>)
    requires carrier != map[]
    requires DocumentOrder(keys, f[KEY := Encode(carrier)])
    requires forall k :: k in f && MatchesKey(k) ==> k == KEY
    ensures Extracted(Injected(carrier, JsonText(Obj(f))), keys) == Some(carrier)
  {
    forall i | 0 <= i < |keys|
      ensures !MatchesKey(keys[i]) || keys[i] == KEY
    {
      assert keys[i] in keys;
    }
    DecodeStopsAt(f[KEY := Encode(carrier)], keys, 0, false);
    ExtractAfterInject(carrier, f, keys);
  }

  const OTHER := "Trace_context"

  lemma OtherSpelling()
    ensures MatchesKey(OTHER) && OTHER != KEY && Before(OTHER, KEY)
  {
    assert OTHER[0] == 'T' && KEY[0] == 't';
    assert Lower(OTHER) == KEY;
  }

  lemma DecodeOther(f: map<string, Value>)
    requires OTHER in f && KEY in f
    ensures Strays(f, [OTHER, KEY]) == DecodeInto(Some(map[]), f[OTHER])
  {
    OtherSpelling();
    assert [OTHER, KEY][..1] == [OTHER] && [OTHER][..0] == [];
    assert DecodeKeys(f, [OTHER], false) == DecodeInto(Some(map[]), f[OTHER]);
  }

  /** A payload that already spells the key differently can pollute the context. */
  lemma StrayKeyPollutes(carrier: Carrier, name: string, value: string)
    requires carrier != map[] && name !in carrier
    ensures var f := map[OTHER := Obj(map[name := Str(value)])];
            && DocumentOrder([OTHER, KEY], f[KEY := Encode(carrier)])
            && Extracted(Injected(carrier, JsonText(Obj(f))), [OTHER, KEY]) != Some(carrier)
  {
    var stray := map[name := Str(value)];
    var f := map[OTHER := Obj(stray)];
    OtherSpelling();
    DecodeOther(f[KEY := Encode(carrier)]);
    assert name in stray;
    assert name in Strays(f[KEY := Encode(carrier)], [OTHER, KEY]).value;
    ExtractAfterInject(carrier, f, [OTHER, KEY]);
  }

  /** A second injection leaves no trace of the first. */
  lemma LastInjectionWins(first: Carrier, second: Carrier, payload: Bytes)
    requires second != map[]
    ensures Injected(second, Injected(first, payload)) == Injected(second, payload)
  {
    if payload.JsonText? && payload.value.Obj? && first != map[] {
      var f := payload.value.fields;
      assert f[KEY := Encode(first)][KEY := Encode(second)] == f[KEY := Encode(second)];
    }
  }
}
