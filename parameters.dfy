/** The request parameter bag (`Wandu\Http\Parameters\Parameter`): a
    read-only PHP array with an optional fallback bag, read by dotted path,
    with casts applied on request. */
module Parameters {
  import opened Wrappers
  import opened Php

  /** A value held in a bag: the scalars the casts handle, and arrays. */
  datatype PValue = PNull | PStr(s: string) | PInt(i: int) | PBool(b: bool) | PArr(entries: seq<(Key, PValue)>)

  /** `new Parameter($params, $fallback)`. */
  datatype Parameter = Parameter(params: seq<(Key, PValue)>, fallback: Option<Parameter>)

  // ---------------------------------------------------------------------
  // get and has

  /** The value at a path of segments, descending into arrays one segment
      at a time; a segment into a non-array finds nothing. */
  function Descend(v: PValue, path: seq<string>): Option<PValue>
    decreases |path|
  {
    if |path| == 0 then Some(v)
    else match v
      case PArr(es) =>
        (match Lookup(es, StrKey(path[0]))
         case None => None
         case Some(w) => Descend(w, path[1..]))
      case _ => None
  }

  /** The value the bag holds under a dotted name, if any. */
  function Own(p: Parameter, name: string): Option<PValue> {
    Descend(PArr(p.params), Split(name, '.'))
  }

  /** The bag's own value, else the fallback's. */
  function Locate(p: Parameter, name: string): Option<PValue>
    decreases p
  {
    match Own(p, name)
    case Some(v) => Some(v)
    case None =>
      match p.fallback
      case None => None
      case Some(f) => Locate(f, name)
  }

  /** `has($name)`: a null value is present. */
  predicate Has(p: Parameter, name: string) {
    Locate(p, name).Some?
  }

  /** `get($name, $default)`. */
  function Get(p: Parameter, name: string, default: PValue): PValue {
    match Locate(p, name)
    case Some(v) => v
    case None => default
  }

  /** `get($name, $default, $cast)`: a value found is cast; the default is
      returned as given. */
  function GetCast(p: Parameter, name: string, default: PValue, cast: Cast): PValue {
    match Locate(p, name)
    case Some(v) => CastValue(v, cast)
    case None => default
  }

  /** A name without a dot is a single segment. */
  lemma SplitNoDot(name: string)
    requires '.' !in name
    ensures Split(name, '.') == [name]
  {
  }

  /** A name without a dot is looked up directly in the bag's own array. */
  lemma OwnPlain(p: Parameter, name: string)
    requires '.' !in name
    ensures Own(p, name) == Lookup(p.params, StrKey(name))
  {
    SplitNoDot(name);
    assert [name][1..] == [];
    match Lookup(p.params, StrKey(name))
    case None =>
    case Some(v) =>
      assert Descend(v, []) == Some(v);
  }

  /** A key held by the bag itself is returned, null included, whatever the
      default and the fallback. */
  lemma GetPresent(p: Parameter, name: string, v: PValue, default: PValue)
    requires '.' !in name && Lookup(p.params, StrKey(name)) == Some(v)
    ensures Has(p, name) && Get(p, name, default) == v
  {
    SplitNoDot(name);
    assert [name][1..] == [];
    assert Descend(v, []) == Some(v);
    assert Own(p, name) == Descend(PArr(p.params), [name]) == Some(v);
  }

  /** A dotted name whose first segment holds a non-array finds nothing in
      the bag itself, so the fallback, or else the default, answers. */
  lemma GetIntoScalar(p: Parameter, first: string, rest: string, v: PValue, default: PValue)
    requires '.' !in first && Lookup(p.params, StrKey(first)) == Some(v) && !v.PArr?
    ensures Own(p, first + "." + rest).None?
    ensures p.fallback.None? ==> !Has(p, first + "." + rest) && Get(p, first + "." + rest, default) == default
  {
    IndexOfAfterFreePrefix(first, '.', rest);
    var name := first + "." + rest;
    assert name[..|first|] == first && name[|first| + 1..] == rest;
    assert Split(name, '.') == [first] + Split(rest, '.');
    assert ([first] + Split(rest, '.'))[1..] == Split(rest, '.');
    assert Descend(v, Split(rest, '.')) == None;
    assert Own(p, name) == Descend(v, Split(rest, '.'));
  }

  /** The default is used exactly when the name is absent. */
  lemma GetDefault(p: Parameter, name: string, d: PValue, d': PValue)
    ensures Has(p, name) ==> Get(p, name, d) == Get(p, name, d')
    ensures !Has(p, name) ==> Get(p, name, d) == d
  {
  }

  /** The bag's own value wins over the fallback's; a name only the
      fallback holds is read from it. */
  lemma GetFallback(p: Parameter, f: Parameter, name: string, d: PValue)
    requires p.fallback == Some(f)
    ensures Own(p, name).Some? ==> Get(p, name, d) == Own(p, name).value
    ensures Own(p, name).None? ==> Get(p, name, d) == Get(f, name, d)
    ensures Has(p, name) <==> Own(p, name).Some? || Has(f, name)
  {
  }

  // ---------------------------------------------------------------------
  // toArray

  /** PHP's array union `$a + $b`: the entries of `a`, then those of `b`
      under keys `a` does not have. */
  function Union(a: seq<(Key, PValue)>, b: seq<(Key, PValue)>): (r: seq<(Key, PValue)>)
    ensures |r| >= |a| && r[..|a|] == a
    decreases |b|
  {
    if |b| == 0 then a
    else
      var rest := Union(a, b[..|b| - 1]);
      var e := b[|b| - 1];
      if Lookup(a, e.0).Some? then rest
      else
        assert (rest + [e])[..|a|] == rest[..|a|];
        rest + [e]
  }

  lemma {:induction false} UnionLookup(a: seq<(Key, PValue)>, b: seq<(Key, PValue)>, k: Key)
    ensures Lookup(Union(a, b), k) == if Lookup(a, k).Some? then Lookup(a, k) else Lookup(b, k)
    decreases |b|
  {
    if |b| > 0 {
      var init := b[..|b| - 1];
      var e := b[|b| - 1];
      assert b == init + [e];
      UnionLookup(a, init, k);
      var rest := Union(a, init);
      if e.0 == k {
        LookupAppendFresh(init, e);
        if Lookup(a, k).None? {
          LookupAppendFresh(rest, e);
        }
      } else {
        LookupAppendOther(init, e, k);
        if Lookup(a, e.0).None? {
          LookupAppendOther(rest, e, k);
        }
      }
    }
  }

  /** Appending an entry under a key not yet present makes it found. */
  lemma LookupAppendFresh(a: seq<(Key, PValue)>, e: (Key, PValue))
    ensures Lookup(a + [e], e.0) == if Lookup(a, e.0).Some? then Lookup(a, e.0) else Some(e.1)
  {
    if Lookup(a, e.0).Some? {
      var i :| 0 <= i < |a| && a[i] == (e.0, Lookup(a, e.0).value);
      LookupPrefix(a, [e], e.0);
    } else {
      assert (a + [e])[|a|] == e;
      LookupLast(a, e);
    }
  }

  lemma {:induction false} LookupPrefix(a: seq<(Key, PValue)>, b: seq<(Key, PValue)>, k: Key)
    requires Lookup(a, k).Some?
    ensures Lookup(a + b, k) == Lookup(a, k)
  {
    if a[0].0 != k {
      assert (a + b)[1..] == a[1..] + b;
      LookupPrefix(a[1..], b, k);
    }
  }

  lemma {:induction false} LookupLast(a: seq<(Key, PValue)>, e: (Key, PValue))
    requires Lookup(a, e.0).None?
    ensures Lookup(a + [e], e.0) == Some(e.1)
  {
    if |a| > 0 {
      assert (a + [e])[1..] == a[1..] + [e];
      LookupLast(a[1..], e);
    }
  }

  /** `toArray()`: the bag's own entries, then the fallback's entries under
      keys the bag does not have. */
  function ToArray(p: Parameter): seq<(Key, PValue)>
    decreases p
  {
    match p.fallback
    case None => p.params
    case Some(f) => Union(p.params, ToArray(f))
  }

  /** The own entries come first, unchanged, and each key reads as the bag
      itself, else as the fallback. */
  lemma ToArrayShape(p: Parameter, k: Key)
    ensures |ToArray(p)| >= |p.params| && ToArray(p)[..|p.params|] == p.params
    ensures Lookup(ToArray(p), k)
      == if Lookup(p.params, k).Some? || p.fallback.None? then Lookup(p.params, k) else Lookup(ToArray(p.fallback.value), k)
  {
    if p.fallback.Some? {
      UnionLookup(p.params, ToArray(p.fallback.value), k);
    }
  }

  /** For a plain name, `toArray` holds the key exactly when `has` is true,
      with the value `get` returns. */
  lemma {:induction false} ToArrayAgrees(p: Parameter, name: string, d: PValue)
    requires '.' !in name
    ensures Lookup(ToArray(p), StrKey(name)).Some? <==> Has(p, name)
    ensures Has(p, name) ==> Lookup(ToArray(p), StrKey(name)) == Some(Get(p, name, d))
    decreases p
  {
    OwnPlain(p, name);
    ToArrayShape(p, StrKey(name));
    if p.fallback.Some? {
      ToArrayAgrees(p.fallback.value, name, d);
    }
  }

  // ---------------------------------------------------------------------
  // Casts

  /** The casts the bag understands (the floating-point ones are not
      modelled). */
  datatype Cast = IntList | StringList | ArrayCast | StringCast | IntCast | BoolCast

  /** The names a cast is requested by. */
  function CastNamed(name: string): (r: Option<Cast>)
    ensures r == Some(IntList) <==> name == "int[]" || name == "integer[]"
    ensures r == Some(BoolCast) <==> name == "bool" || name == "boolean"
  {
    if name == "int[]" || name == "integer[]" then Some(IntList)
    else if name == "string[]" then Some(StringList)
    else if name == "array" then Some(ArrayCast)
    else if name == "string" then Some(StringCast)
    else if name == "int" || name == "integer" then Some(IntCast)
    else if name == "bool" || name == "boolean" then Some(BoolCast)
    else None
  }

  function DecimalString(i: int): string {
    if i < 0 then "-" + Decimal(-i) else Decimal(i)
  }

  /** `(string) $v`. */
  function StrOf(v: PValue): string {
    match v
    case PNull => ""
    case PStr(s) => s
    case PInt(i) => DecimalString(i)
    case PBool(b) => if b then "1" else ""
    case PArr(_) => "Array"
  }

  /** `(int) $v`. */
  function IntOf(v: PValue): int {
    match v
    case PNull => 0
    case PStr(s) => IntVal(s)
    case PInt(i) => i
    case PBool(b) => if b then 1 else 0
    case PArr(es) => if |es| > 0 then 1 else 0
  }

  /** `(bool) $v`, except that the string `"false"` is false. */
  function BoolOf(v: PValue): bool {
    match v
    case PNull => false
    case PStr(s) => s != "false" && Truthy(s)
    case PInt(i) => i != 0
    case PBool(b) => b
    case PArr(es) => |es| > 0
  }

  /** A PHP list: the values under the keys 0, 1, 2, ... */
  function Listed(vs: seq<PValue>): (r: seq<(Key, PValue)>)
    ensures |r| == |vs| && forall i :: 0 <= i < |vs| ==> r[i] == (IntKey(i), vs[i])
  {
    seq(|vs|, i requires 0 <= i < |vs| => (IntKey(i), vs[i]))
  }

  function Strings(parts: seq<string>): (r: seq<PValue>)
    ensures |r| == |parts| && forall i :: 0 <= i < |parts| ==> r[i] == PStr(parts[i])
  {
    seq(|parts|, i requires 0 <= i < |parts| => PStr(parts[i]))
  }

  /** The items a list cast works on: an array's entries, or the pieces of
      the value's string between commas. */
  function Items(v: PValue): seq<(Key, PValue)> {
    match v
    case PArr(es) => es
    case _ => Listed(Strings(Split(StrOf(v), ',')))
  }

  function MapInts(es: seq<(Key, PValue)>): (r: seq<(Key, PValue)>)
    ensures |r| == |es| && forall i :: 0 <= i < |es| ==> r[i] == (es[i].0, PInt(IntOf(es[i].1)))
  {
    seq(|es|, i requires 0 <= i < |es| => (es[i].0, PInt(IntOf(es[i].1))))
  }

  function MapStrings(es: seq<(Key, PValue)>): (r: seq<(Key, PValue)>)
    ensures |r| == |es| && forall i :: 0 <= i < |es| ==> r[i] == (es[i].0, PStr(StrOf(es[i].1)))
  {
    seq(|es|, i requires 0 <= i < |es| => (es[i].0, PStr(StrOf(es[i].1))))
  }

  function StringsOf(es: seq<(Key, PValue)>): (r: seq<string>)
    ensures |r| == |es| && forall i :: 0 <= i < |es| ==> r[i] == StrOf(es[i].1)
  {
    seq(|es|, i requires 0 <= i < |es| => StrOf(es[i].1))
  }

  function CastValue(v: PValue, c: Cast): PValue {
    match c
    case IntList => PArr(MapInts(Items(v)))
    case StringList => PArr(MapStrings(Items(v)))
    case ArrayCast => PArr(Items(v))
    case StringCast => if v.PArr? then PStr(Join(StringsOf(v.entries), ',')) else PStr(StrOf(v))
    case IntCast => PInt(IntOf(v))
    case BoolCast => PBool(BoolOf(v))
  }

  /** A string cast to a list splits at every comma; casting the list back
      to a string gives the original string. */
  lemma CastSplitJoin(s: string)
    ensures CastValue(PStr(s), StringList) == PArr(Listed(Strings(Split(s, ','))))
    ensures CastValue(PStr(s), ArrayCast) == CastValue(PStr(s), StringList)
    ensures CastValue(CastValue(PStr(s), StringList), StringCast) == PStr(s)
  {
    var es := Listed(Strings(Split(s, ',')));
    assert MapStrings(es) == es;
    assert StringsOf(es) == Split(s, ',');
    JoinSplit(s, ',');
  }

  /** A plain list of strings is unchanged by `array` and `string[]`, and
      `string` joins its items with commas. */
  lemma CastStringList(parts: seq<string>)
    ensures CastValue(PArr(Listed(Strings(parts))), ArrayCast) == PArr(Listed(Strings(parts)))
    ensures CastValue(PArr(Listed(Strings(parts))), StringList) == PArr(Listed(Strings(parts)))
    ensures CastValue(PArr(Listed(Strings(parts))), StringCast) == PStr(Join(parts, ','))
  {
    var es := Listed(Strings(parts));
    assert MapStrings(es) == es;
    assert StringsOf(es) == parts;
  }

  /** `int[]` reads every item as an integer, under its own key. */
  lemma CastIntList(v: PValue)
    ensures CastValue(v, IntList).PArr?
    ensures var r := CastValue(v, IntList).entries;
      |r| == |Items(v)| && forall i :: 0 <= i < |r| ==> r[i] == (Items(v)[i].0, PInt(IntOf(Items(v)[i].1)))
  {
  }

  /** The integer cast reads back a decimal spelling. */
  lemma IntOfDecimal(n: nat)
    ensures IntOf(PStr(Decimal(n))) == n
  {
    IntValDecimal(n);
  }

  function Decimals(ns: seq<nat>): (r: seq<string>)
    ensures |r| == |ns| && forall i :: 0 <= i < |ns| ==> r[i] == Decimal(ns[i])
  {
    seq(|ns|, i requires 0 <= i < |ns| => Decimal(ns[i]))
  }

  function Ints(ns: seq<nat>): (r: seq<PValue>)
    ensures |r| == |ns| && forall i :: 0 <= i < |ns| ==> r[i] == PInt(ns[i])
  {
    seq(|ns|, i requires 0 <= i < |ns| => PInt(ns[i]))
  }

  /** Numbers written out and joined by commas come back under `int[]`. */
  lemma CastDecimals(ns: seq<nat>)
    requires |ns| >= 1
    ensures CastValue(PStr(Join(Decimals(ns), ',')), IntList) == PArr(Listed(Ints(ns)))
  {
    DecimalsNoComma(ns);
    SplitJoin(Decimals(ns), ',');
    ReadDecimals(ns);
  }

  lemma DecimalsNoComma(ns: seq<nat>)
    ensures forall i :: 0 <= i < |ns| ==> ',' !in Decimals(ns)[i]
  {
    forall i | 0 <= i < |ns| ensures ',' !in Decimals(ns)[i] {
      var d := Decimal(ns[i]);
      assert forall j :: 0 <= j < |d| ==> IsDigit(d[j]);
    }
  }

  lemma ReadDecimals(ns: seq<nat>)
    ensures MapInts(Listed(Strings(Decimals(ns)))) == Listed(Ints(ns))
  {
    var es := Listed(Strings(Decimals(ns)));
    forall i | 0 <= i < |ns| ensures MapInts(es)[i] == Listed(Ints(ns))[i] {
      assert es[i] == (IntKey(i), PStr(Decimal(ns[i])));
      IntOfDecimal(ns[i]);
    }
  }

  lemma DecimalsExample()
    ensures Decimal(10) == "10" && Decimal(20) == "20" && Decimal(30) == "30"
  {
    assert Decimal(1) == "1" && Decimal(2) == "2" && Decimal(3) == "3";
  }

  /** `"10"` reads as 10 for `int`. */
  lemma CastTenInt(s: string)
    requires s == "10"
    ensures CastValue(PStr(s), IntCast) == PInt(10)
  {
    IntOfTen(s);
    CastInt(PStr(s));
  }

  /** `int` is the integer reading of the value, whatever it is. */
  lemma CastInt(v: PValue)
    ensures CastValue(v, IntCast) == PInt(IntOf(v))
  {
  }

  lemma IntOfTen(s: string)
    requires s == "10"
    ensures IntOf(PStr(s)) == 10
  {
    assert !IsSpace(s[0]) && s[0] != '-' && s[0] != '+';
    assert SkipSpace(s) == s;
    assert s[1..] == "0" && "0"[1..] == [];
    assert DigitPrefix(s) == s;
    assert s[..1] == "1" && "1"[..0] == [];
    assert DigitsValue(s) == DigitsValue("1") * 10 + 0;
  }

  /** `"10"` is the single item 10 of `int[]`. */
  lemma CastTenList()
    ensures CastValue(PStr("10"), IntList) == PArr([(IntKey(0), PInt(10))])
  {
    assert Join(Decimals([10]), ',') == "10" by {
      DecimalsExample();
    }
    assert CastValue(PStr(Join(Decimals([10]), ',')), IntList) == PArr(Listed(Ints([10]))) by {
      CastDecimals([10]);
    }
    assert Listed(Ints([10])) == [(IntKey(0), PInt(10))];
  }

  /** `"10,20,30"` gives the three numbers for `int[]`. */
  lemma CastNumbers()
    ensures CastValue(PStr("10,20,30"), IntList) == PArr([(IntKey(0), PInt(10)), (IntKey(1), PInt(20)), (IntKey(2), PInt(30))])
  {
    JoinNumbers();
    CastDecimals([10, 20, 30]);
    ListedNumbers();
  }

  lemma JoinNumbers()
    ensures Join(Decimals([10, 20, 30]), ',') == "10,20,30"
  {
    var ds := Decimals([10, 20, 30]);
    DecimalsExample();
    assert ds == ["10", "20", "30"];
    assert ds[1..] == ["20", "30"] && ds[1..][1..] == ["30"];
  }

  lemma ListedNumbers()
    ensures Listed(Ints([10, 20, 30])) == [(IntKey(0), PInt(10)), (IntKey(1), PInt(20)), (IntKey(2), PInt(30))]
  {
  }

  /** The boolean casts: `"false"` is false, `"true"` and `"10"` are true. */
  lemma CastBooleans()
    ensures CastValue(PStr("false"), BoolCast) == PBool(false)
    ensures CastValue(PStr("true"), BoolCast) == PBool(true)
    ensures CastValue(PStr("10"), BoolCast) == PBool(true)
  {
  }

  /** `toArray($casts)`: the entries of `toArray()`, each cast if its key
      names a cast. */
  function ToArrayCast(p: Parameter, casts: seq<(Key, Cast)>): (r: seq<(Key, PValue)>)
    ensures |r| == |ToArray(p)|
  {
    var a := ToArray(p);
    seq(|a|, i requires 0 <= i < |a| =>
      (a[i].0, match Lookup(casts, a[i].0) case None => a[i].1 case Some(c) => CastValue(a[i].1, c)))
  }

  /** Casting keeps every key in place, casts exactly the keys named, and
      leaves every other value as it was. */
  lemma ToArrayCastEntries(p: Parameter, casts: seq<(Key, Cast)>, i: nat)
    requires i < |ToArray(p)|
    ensures ToArrayCast(p, casts)[i].0 == ToArray(p)[i].0
    ensures Lookup(casts, ToArray(p)[i].0).None? ==> ToArrayCast(p, casts)[i].1 == ToArray(p)[i].1
    ensures Lookup(casts, ToArray(p)[i].0).Some? ==>
      ToArrayCast(p, casts)[i].1 == CastValue(ToArray(p)[i].1, Lookup(casts, ToArray(p)[i].0).value)
  {
  }

  /** With no casts, `toArray($casts)` is `toArray()`. */
  lemma ToArrayNoCast(p: Parameter)
    ensures ToArrayCast(p, []) == ToArray(p)
  {
  }
}
