/** The few PHP built-ins the core relies on, written out on `string`
    (`seq<char>`): `strpos`, `explode`/`implode` with a one-character
    delimiter, `strtoupper`, `ltrim`, the `(int)` cast of a string and the
    truthiness of a string. Only ASCII behaviour is modelled. */
module Php {
  import opened Wrappers

  /** `strpos($s, $c)` for a single character: the first index, or `false`. */
  function IndexOf(s: string, c: char): (r: Option<nat>)
    ensures r.Some? ==> r.value < |s| && s[r.value] == c && c !in s[..r.value]
    ensures r.None? ==> c !in s
  {
    if |s| == 0 then None
    else if s[0] == c then Some(0)
    else match IndexOf(s[1..], c)
      case None => None
      case Some(i) => Some(i + 1)
  }

  /** `pat` occurs in `s` starting at index `j`. */
  predicate OccursAt(s: string, pat: string, j: nat) {
    j + |pat| <= |s| && s[j..j + |pat|] == pat
  }

  lemma OccursAtTail(s: string, pat: string, j: nat)
    requires |s| > 0
    ensures OccursAt(s, pat, j + 1) <==> OccursAt(s[1..], pat, j)
  {
    if j + 1 + |pat| <= |s| {
      assert s[j + 1..j + 1 + |pat|] == s[1..][j..j + |pat|];
    }
  }

  /** `strpos($s, $pat)`: the first index at which `pat` occurs in `s`. */
  function Find(s: string, pat: string): (r: Option<nat>)
    ensures r.Some? ==> OccursAt(s, pat, r.value)
    ensures r.Some? ==> forall j: nat :: j < r.value ==> !OccursAt(s, pat, j)
    ensures r.None? ==> forall j: nat :: !OccursAt(s, pat, j)
    decreases |s|
  {
    if |s| < |pat| then None
    else if s[..|pat|] == pat then Some(0)
    else match Find(s[1..], pat)
      case None =>
        assert forall j: nat :: !OccursAt(s, pat, j) by {
          forall j: nat ensures !OccursAt(s, pat, j) {
            if j > 0 { OccursAtTail(s, pat, j - 1); }
          }
        }
        None
      case Some(i) =>
        OccursAtTail(s, pat, i);
        assert forall j: nat :: j < i + 1 ==> !OccursAt(s, pat, j) by {
          forall j: nat | j < i + 1 ensures !OccursAt(s, pat, j) {
            if j > 0 { OccursAtTail(s, pat, j - 1); }
          }
        }
        Some(i + 1)
  }

  /** PHP's truthiness of a string: only `""` and `"0"` are falsy. */
  predicate Truthy(s: string) {
    s != "" && s != "0"
  }

  /** `explode($sep, $s)`: never empty; no piece contains the separator. */
  function Split(s: string, sep: char): (r: seq<string>)
    ensures |r| >= 1
    ensures forall i :: 0 <= i < |r| ==> sep !in r[i]
    decreases |s|
  {
    match IndexOf(s, sep)
    case None => [s]
    case Some(i) => [s[..i]] + Split(s[i + 1..], sep)
  }

  /** `implode($sep, $parts)`. */
  function Join(parts: seq<string>, sep: char): string {
    if |parts| == 0 then ""
    else if |parts| == 1 then parts[0]
    else parts[0] + [sep] + Join(parts[1..], sep)
  }

  /** Splitting undoes joining, and joining undoes splitting. */
  lemma {:induction false} JoinSplit(s: string, sep: char)
    ensures Join(Split(s, sep), sep) == s
    decreases |s|
  {
    match IndexOf(s, sep)
    case None =>
    case Some(i) =>
      var parts := Split(s[i + 1..], sep);
      JoinSplit(s[i + 1..], sep);
      assert Split(s, sep) == [s[..i]] + parts;
      assert ([s[..i]] + parts)[1..] == parts;
      assert Join([s[..i]] + parts, sep) == s[..i] + [sep] + Join(parts, sep);
      assert s == s[..i] + [sep] + s[i + 1..];
  }

  lemma {:induction false} SplitJoin(parts: seq<string>, sep: char)
    requires |parts| >= 1
    requires forall i :: 0 <= i < |parts| ==> sep !in parts[i]
    ensures Split(Join(parts, sep), sep) == parts
  {
    if |parts| == 1 {
    } else {
      var rest := Join(parts[1..], sep);
      var s := parts[0] + [sep] + rest;
      SplitJoin(parts[1..], sep);
      IndexOfAfterFreePrefix(parts[0], sep, rest);
      assert s[..|parts[0]|] == parts[0];
      assert s[|parts[0]| + 1..] == rest;
    }
  }

  lemma {:induction false} IndexOfAfterFreePrefix(p: string, sep: char, rest: string)
    requires sep !in p
    ensures IndexOf(p + [sep] + rest, sep) == Some(|p|)
  {
    if |p| > 0 {
      assert (p + [sep] + rest)[1..] == p[1..] + [sep] + rest;
      IndexOfAfterFreePrefix(p[1..], sep, rest);
    }
  }

  /** The first occurrence within a prefix is the first occurrence. */
  lemma {:induction false} IndexOfExtend(s: string, c: char, t: string)
    requires IndexOf(s, c).Some?
    ensures IndexOf(s + t, c) == IndexOf(s, c)
  {
    if s[0] != c {
      assert (s + t)[1..] == s[1..] + t;
      IndexOfExtend(s[1..], c, t);
    }
  }

  /** `explode` of two strings joined by the separator is the pieces of the
      first followed by the pieces of the second. */
  lemma SplitConcat(a: string, sep: char, b: string)
    ensures Split(a + [sep] + b, sep) == Split(a, sep) + Split(b, sep)
  {
    var pa, pb := Split(a, sep), Split(b, sep);
    JoinSplit(a, sep);
    JoinSplit(b, sep);
    JoinConcat(pa, pb, sep);
    NoSeparatorConcat(pa, pb, sep);
    SplitJoin(pa + pb, sep);
  }

  lemma NoSeparatorConcat(x: seq<string>, y: seq<string>, sep: char)
    requires forall i :: 0 <= i < |x| ==> sep !in x[i]
    requires forall i :: 0 <= i < |y| ==> sep !in y[i]
    ensures forall i :: 0 <= i < |x + y| ==> sep !in (x + y)[i]
  {
    forall i | 0 <= i < |x + y| ensures sep !in (x + y)[i] {
      if i < |x| {
        assert (x + y)[i] == x[i];
      } else {
        assert (x + y)[i] == y[i - |x|];
      }
    }
  }

  /** Joining two lists of pieces one after the other puts one separator
      between their joins. */
  lemma {:induction false} JoinConcat(x: seq<string>, y: seq<string>, sep: char)
    requires |x| >= 1 && |y| >= 1
    ensures Join(x + y, sep) == Join(x, sep) + [sep] + Join(y, sep)
    decreases |x|
  {
    var xy := x + y;
    assert xy[0] == x[0] && xy[1..] == x[1..] + y;
    if |x| == 1 {
      assert xy[1..] == y;
    } else {
      JoinConcat(x[1..], y, sep);
      assert x[0] + [sep] + (Join(x[1..], sep) + [sep] + Join(y, sep))
        == (x[0] + [sep] + Join(x[1..], sep)) + [sep] + Join(y, sep);
    }
  }

  function UpperChar(c: char): char {
    if 'a' <= c <= 'z' then (c as int - 32) as char else c
  }

  /** `strtoupper` on ASCII letters. */
  function ToUpper(s: string): (r: string)
    ensures |r| == |s|
    ensures forall i :: 0 <= i < |s| ==> r[i] == UpperChar(s[i])
  {
    if |s| == 0 then [] else [UpperChar(s[0])] + ToUpper(s[1..])
  }

  /** The characters `ltrim` removes by default: space, tab, newline,
      carriage return, NUL and vertical tab. */
  predicate IsTrimmed(c: char) {
    c == ' ' || c == '\t' || c == '\n' || c == '\r' || c == '\0' || c as int == 11
  }

  function LTrim(s: string): (r: string)
    ensures |r| <= |s| && r == s[|s| - |r|..]
    ensures |r| > 0 ==> !IsTrimmed(r[0])
    ensures forall i :: 0 <= i < |s| - |r| ==> IsTrimmed(s[i])
  {
    if |s| > 0 && IsTrimmed(s[0]) then
      var r := LTrim(s[1..]);
      assert s[1..][|s| - 1 - |r|..] == s[|s| - |r|..];
      assert forall i :: 1 <= i < |s| - |r| ==> s[i] == s[1..][i - 1];
      r
    else s
  }

  predicate IsDigit(c: char) {
    '0' <= c <= '9'
  }

  /** The longest prefix of `s` made of decimal digits. */
  function DigitPrefix(s: string): (r: string)
    ensures |r| <= |s| && r == s[..|r|]
    ensures forall i :: 0 <= i < |r| ==> IsDigit(r[i])
    ensures |r| < |s| ==> !IsDigit(s[|r|])
  {
    if |s| > 0 && IsDigit(s[0]) then [s[0]] + DigitPrefix(s[1..]) else []
  }

  /** The number a string of digits denotes. */
  function DigitsValue(ds: string): nat
    requires forall i :: 0 <= i < |ds| ==> IsDigit(ds[i])
  {
    if |ds| == 0 then 0
    else
      assert IsDigit(ds[|ds| - 1]);
      DigitsValue(ds[..|ds| - 1]) * 10 + (ds[|ds| - 1] as int - '0' as int)
  }

  /** The whitespace PHP's string-to-integer conversion skips. */
  predicate IsSpace(c: char) {
    c == ' ' || c == '\t' || c == '\n' || c == '\r' || c as int == 11 || c as int == 12
  }

  function SkipSpace(s: string): (r: string)
    ensures |r| <= |s| && r == s[|s| - |r|..]
    ensures |r| > 0 ==> !IsSpace(r[0])
  {
    if |s| > 0 && IsSpace(s[0]) then SkipSpace(s[1..]) else s
  }

  /** `(int) $s`: leading whitespace, an optional sign, then the longest
      run of digits; a string with no leading number gives 0. */
  function IntVal(s: string): int {
    var t := SkipSpace(s);
    if |t| > 0 && t[0] == '-' then 0 - DigitsValue(DigitPrefix(t[1..])) as int
    else if |t| > 0 && t[0] == '+' then DigitsValue(DigitPrefix(t[1..]))
    else DigitsValue(DigitPrefix(t))
  }

  function DigitChar(d: nat): char
    requires d < 10
  {
    ('0' as int + d) as char
  }

  /** The decimal spelling of a natural number, as PHP prints it. */
  function Decimal(n: nat): (r: string)
    ensures |r| >= 1
    ensures forall i :: 0 <= i < |r| ==> IsDigit(r[i])
  {
    if n < 10 then [DigitChar(n)] else Decimal(n / 10) + [DigitChar(n % 10)]
  }

  lemma {:induction false} DecimalValue(n: nat)
    ensures DigitsValue(Decimal(n)) == n
  {
    if n >= 10 {
      var r := Decimal(n);
      DecimalValue(n / 10);
      assert r[..|r| - 1] == Decimal(n / 10);
    }
  }

  lemma {:induction false} DigitPrefixOfDigits(s: string)
    requires forall i :: 0 <= i < |s| ==> IsDigit(s[i])
    ensures DigitPrefix(s) == s
  {
    if |s| > 0 {
      DigitPrefixOfDigits(s[1..]);
    }
  }

  /** The `(int)` cast reads back what `Decimal` wrote, for either sign. */
  lemma IntValDecimal(n: int)
    ensures IntVal(if n < 0 then "-" + Decimal(-n) else Decimal(n)) == n
  {
    var d := Decimal(if n < 0 then -n else n);
    DigitPrefixOfDigits(d);
    DecimalValue(if n < 0 then -n else n);
    assert !IsSpace(d[0]) && d[0] != '-' && d[0] != '+';
    if n < 0 {
      var s := "-" + d;
      assert s[0] == '-';
      assert SkipSpace(s) == s;
      assert s[1..] == d;
    } else {
      assert SkipSpace(d) == d;
    }
  }

  // ---------------------------------------------------------------------
  // Ordered arrays

  /** A PHP array key. */
  datatype Key = IntKey(i: int) | StrKey(s: string)

  /** `$a[$k]` on an array kept as a list of entries in insertion order:
      the value of the first entry with key `k`. */
  function Lookup<K(==), V>(a: seq<(K, V)>, k: K): (r: Option<V>)
    ensures r.None? <==> forall i :: 0 <= i < |a| ==> a[i].0 != k
    ensures r.Some? ==> exists i :: 0 <= i < |a| && a[i] == (k, r.value)
  {
    if |a| == 0 then None
    else if a[0].0 == k then Some(a[0].1)
    else
      var r := Lookup(a[1..], k);
      assert forall i :: 1 <= i < |a| ==> a[i] == a[1..][i - 1];
      r
  }

  /** The keys of an array, in order. */
  function KeysOf<K, V>(a: seq<(K, V)>): (r: seq<K>)
    ensures |r| == |a| && forall i :: 0 <= i < |a| ==> r[i] == a[i].0
  {
    if |a| == 0 then [] else [a[0].0] + KeysOf(a[1..])
  }

  /** `$a[$k] = $v`: an existing key keeps its position, a new one is added
      at the end. */
  function Store<K(==,!new), V>(a: seq<(K, V)>, k: K, v: V): (r: seq<(K, V)>)
    ensures Lookup(a, k).Some? ==> KeysOf(r) == KeysOf(a)
    ensures Lookup(a, k).None? ==> r == a + [(k, v)]
    ensures Lookup(r, k) == Some(v)
    ensures forall k' :: k' != k ==> Lookup(r, k') == Lookup(a, k')
  {
    if |a| == 0 then [(k, v)]
    else if a[0].0 == k then [(k, v)] + a[1..]
    else
      var rest := Store(a[1..], k, v);
      StoreConsKeys(a, k, v, rest);
      StoreConsLookup(a, k, v, rest);
      [a[0]] + rest
  }

  /** The recursive case of `Store`: an entry with another key in front of
      a correctly stored tail keeps the keys, or appends the new entry. */
  lemma StoreConsKeys<K, V>(a: seq<(K, V)>, k: K, v: V, rest: seq<(K, V)>)
    requires |a| > 0 && a[0].0 != k
    requires Lookup(a[1..], k).Some? ==> KeysOf(rest) == KeysOf(a[1..])
    requires Lookup(a[1..], k).None? ==> rest == a[1..] + [(k, v)]
    ensures Lookup(a, k).Some? ==> KeysOf([a[0]] + rest) == KeysOf(a)
    ensures Lookup(a, k).None? ==> [a[0]] + rest == a + [(k, v)]
  {
    var r := [a[0]] + rest;
    assert r[1..] == rest;
    assert Lookup(a, k) == Lookup(a[1..], k);
    assert KeysOf(a) == [a[0].0] + KeysOf(a[1..]);
    assert KeysOf(r) == [a[0].0] + KeysOf(rest);
    if Lookup(a, k).None? {
      assert a == [a[0]] + a[1..];
    }
  }

  /** ... and looks up `v` under `k` and the old value under every other key. */
  lemma StoreConsLookup<K(!new), V>(a: seq<(K, V)>, k: K, v: V, rest: seq<(K, V)>)
    requires |a| > 0 && a[0].0 != k
    requires Lookup(rest, k) == Some(v)
    requires forall k' :: k' != k ==> Lookup(rest, k') == Lookup(a[1..], k')
    ensures Lookup([a[0]] + rest, k) == Some(v)
    ensures forall k' :: k' != k ==> Lookup([a[0]] + rest, k') == Lookup(a, k')
  {
    var r := [a[0]] + rest;
    assert r[0] == a[0] && r[1..] == rest;
    forall k' | k' != k
      ensures Lookup(r, k') == Lookup(a, k')
    {
      if a[0].0 != k' {
        assert Lookup(r, k') == Lookup(rest, k');
      }
    }
  }

  /** The values under integer keys, in order. */
  function IntKeyed<V>(a: seq<(Key, V)>): (r: seq<V>)
    ensures |r| <= |a|
  {
    if |a| == 0 then []
    else (if a[0].0.IntKey? then [a[0].1] else []) + IntKeyed(a[1..])
  }

  /** `IntKeyed` distributes over concatenation ... */
  lemma {:induction false} IntKeyedAppend<V>(a: seq<(Key, V)>, b: seq<(Key, V)>)
    ensures IntKeyed(a + b) == IntKeyed(a) + IntKeyed(b)
  {
    if |a| == 0 {
      assert a + b == b;
    } else {
      var h := if a[0].0.IntKey? then [a[0].1] else [];
      IntKeyedAppend(a[1..], b);
      assert (a + b)[0] == a[0] && (a + b)[1..] == a[1..] + b;
      assert IntKeyed(a + b) == h + IntKeyed(a[1..] + b);
      assert IntKeyed(a) == h + IntKeyed(a[1..]);
      assert h + (IntKeyed(a[1..]) + IntKeyed(b)) == (h + IntKeyed(a[1..])) + IntKeyed(b);
    }
  }

  /** ... and keeps one entry exactly when its key is an integer; together
      these say that the result is the integer-keyed values in order. */
  lemma IntKeyedSingle<V>(k: Key, v: V)
    ensures IntKeyed([(k, v)]) == (if k.IntKey? then [v] else [])
  {
    assert [(k, v)][1..] == [];
  }

  /** A value is kept exactly when some entry holds it under an integer key. */
  lemma {:induction false} IntKeyedMembers<V>(a: seq<(Key, V)>, v: V)
    ensures v in IntKeyed(a) <==> exists i :: 0 <= i < |a| && a[i].0.IntKey? && a[i].1 == v
  {
    if |a| > 0 {
      var tail := a[1..];
      IntKeyedMembers(tail, v);
      if exists i :: 0 <= i < |tail| && tail[i].0.IntKey? && tail[i].1 == v {
        var i :| 0 <= i < |tail| && tail[i].0.IntKey? && tail[i].1 == v;
        assert a[i + 1] == tail[i];
      }
      if exists i :: 0 <= i < |a| && a[i].0.IntKey? && a[i].1 == v {
        var i :| 0 <= i < |a| && a[i].0.IntKey? && a[i].1 == v;
        if i > 0 {
          assert tail[i - 1] == a[i];
        }
      }
    }
  }

  /** One entry of `array_merge`: a string key is assigned, an integer-keyed
      value is appended under the next index. */
  function MergeEntry<V>(acc: seq<(Key, V)>, e: (Key, V)): seq<(Key, V)> {
    if e.0.StrKey? then Store(acc, e.0, e.1) else acc + [(IntKey(|IntKeyed(acc)|), e.1)]
  }

  function MergeAll<V>(acc: seq<(Key, V)>, xs: seq<(Key, V)>): seq<(Key, V)>
    decreases |xs|
  {
    if |xs| == 0 then acc else MergeAll(MergeEntry(acc, xs[0]), xs[1..])
  }

  /** `array_merge($a, $b)`. */
  function ArrayMerge<V>(a: seq<(Key, V)>, b: seq<(Key, V)>): seq<(Key, V)> {
    MergeAll(MergeAll([], a), b)
  }

  /** The value of the last entry with key `k`. */
  function LastValue<K(==), V>(a: seq<(K, V)>, k: K): Option<V>
    decreases |a|
  {
    if |a| == 0 then None
    else if a[|a| - 1].0 == k then Some(a[|a| - 1].1)
    else LastValue(a[..|a| - 1], k)
  }

  lemma {:induction false} MergeAllString<V>(acc: seq<(Key, V)>, xs: seq<(Key, V)>, s: string)
    ensures Lookup(MergeAll(acc, xs), StrKey(s))
      == if LastValue(xs, StrKey(s)).Some? then LastValue(xs, StrKey(s)) else Lookup(acc, StrKey(s))
    decreases |xs|
  {
    if |xs| > 0 {
      var next := MergeEntry(acc, xs[0]);
      MergeAllString(next, xs[1..], s);
      LastValueCons(xs, StrKey(s));
      if !xs[0].0.StrKey? {
        LookupAppendOther(acc, (IntKey(|IntKeyed(acc)|), xs[0].1), StrKey(s));
      }
    }
  }

  lemma {:induction false} LastValueCons<K, V>(a: seq<(K, V)>, k: K)
    requires |a| > 0
    ensures LastValue(a, k) == if LastValue(a[1..], k).Some? then LastValue(a[1..], k)
                               else if a[0].0 == k then Some(a[0].1) else None
    decreases |a|
  {
    if |a| > 1 && a[|a| - 1].0 != k {
      LastValueCons(a[..|a| - 1], k);
      assert a[..|a| - 1][1..] == a[1..][..|a[1..]| - 1];
    }
  }

  lemma LookupAppendOther<K, V>(a: seq<(K, V)>, e: (K, V), k: K)
    requires e.0 != k
    ensures Lookup(a + [e], k) == Lookup(a, k)
  {
    if Lookup(a, k).Some? {
      LookupFirst(a, [e], k);
    }
  }

  lemma {:induction false} LookupFirst<K, V>(a: seq<(K, V)>, b: seq<(K, V)>, k: K)
    requires Lookup(a, k).Some?
    ensures Lookup(a + b, k) == Lookup(a, k)
  {
    if a[0].0 != k {
      assert (a + b)[1..] == a[1..] + b;
      LookupFirst(a[1..], b, k);
    }
  }

  /** Under a string key, `array_merge` gives the right operand's value when
      it has the key, and the left operand's otherwise. */
  lemma ArrayMergeString<V>(a: seq<(Key, V)>, b: seq<(Key, V)>, s: string)
    ensures Lookup(ArrayMerge(a, b), StrKey(s))
      == if LastValue(b, StrKey(s)).Some? then LastValue(b, StrKey(s)) else LastValue(a, StrKey(s))
  {
    MergeAllString([], a, s);
    MergeAllString(MergeAll([], a), b, s);
  }

  lemma {:induction false} MergeAllInts<V>(acc: seq<(Key, V)>, xs: seq<(Key, V)>)
    ensures IntKeyed(MergeAll(acc, xs)) == IntKeyed(acc) + IntKeyed(xs)
    decreases |xs|
  {
    if |xs| > 0 {
      var next := MergeEntry(acc, xs[0]);
      MergeAllInts(next, xs[1..]);
      MergeEntryInts(acc, xs[0]);
      IntKeyedAppend([xs[0]], xs[1..]);
      assert [xs[0]] + xs[1..] == xs;
    }
  }

  lemma MergeEntryInts<V>(acc: seq<(Key, V)>, e: (Key, V))
    ensures IntKeyed(MergeEntry(acc, e)) == IntKeyed(acc) + IntKeyed([e])
  {
    IntKeyedSingle(e.0, e.1);
    if e.0.StrKey? {
      StoreKeepsInts(acc, e.0.s, e.1);
    } else {
      IntKeyedAppend(acc, [(IntKey(|IntKeyed(acc)|), e.1)]);
      IntKeyedSingle(IntKey(|IntKeyed(acc)|), e.1);
    }
  }

  lemma {:induction false} StoreKeepsInts<V>(a: seq<(Key, V)>, s: string, v: V)
    ensures IntKeyed(Store(a, StrKey(s), v)) == IntKeyed(a)
  {
    if |a| == 0 {
      IntKeyedSingle(StrKey(s), v);
    } else if a[0].0 == StrKey(s) {
      assert ([(StrKey(s), v)] + a[1..])[1..] == a[1..];
    } else {
      var r := Store(a, StrKey(s), v);
      StoreKeepsInts(a[1..], s, v);
      assert r[1..] == Store(a[1..], StrKey(s), v);
    }
  }

  /** `array_merge` renumbers the integer-keyed values of both operands
      and keeps them in order, left operand first. */
  lemma ArrayMergeInts<V>(a: seq<(Key, V)>, b: seq<(Key, V)>)
    ensures IntKeyed(ArrayMerge(a, b)) == IntKeyed(a) + IntKeyed(b)
  {
    MergeAllInts([], a);
    MergeAllInts(MergeAll([], a), b);
  }

  /** `foreach ($xs as $k => $v) $result[$k] = f($v);` where a failing call
      ends the loop with its error. */
  function StoreEach<V, W, E>(f: V -> Result<W, E>, xs: seq<(Key, V)>): Result<seq<(Key, W)>, E>
    decreases |xs|
  {
    if |xs| == 0 then Ok([])
    else
      var acc :- StoreEach(f, xs[..|xs| - 1]);
      var out :- f(xs[|xs| - 1].1);
      Ok(Store(acc, xs[|xs| - 1].0, out))
  }

  /** No key occurs twice, as in every PHP array. */
  predicate UniqueKeys<V>(a: seq<(Key, V)>) {
    forall i, j :: 0 <= i < j < |a| ==> a[i].0 != a[j].0
  }

  /** Over distinct keys, a successful `StoreEach` keeps the keys in order
      and holds each value's result under its key. */
  lemma {:induction false} StoreEachKeys<V, W, E>(f: V -> Result<W, E>, xs: seq<(Key, V)>)
    requires UniqueKeys(xs) && StoreEach(f, xs).Ok?
    ensures var r := StoreEach(f, xs).value;
      && |r| == |xs|
      && forall i :: 0 <= i < |r| ==> r[i].0 == xs[i].0 && f(xs[i].1) == Ok(r[i].1)
    decreases |xs|
  {
    if |xs| > 0 {
      var n := |xs| - 1;
      var init := xs[..n];
      UniqueKeysInit(xs);
      StoreEachKeys(f, init);
      var acc := StoreEach(f, init).value;
      var out := f(xs[n].1).value;
      KeyAbsent(xs, acc);
      assert StoreEach(f, xs).value == acc + [(xs[n].0, out)];
      ResultsAppend(f, xs, acc, out);
    }
  }

  lemma UniqueKeysInit<V>(xs: seq<(Key, V)>)
    requires |xs| > 0 && UniqueKeys(xs)
    ensures UniqueKeys(xs[..|xs| - 1])
    ensures forall i :: 0 <= i < |xs| - 1 ==> xs[..|xs| - 1][i] == xs[i]
  {
  }

  /** Under distinct keys, the last key is not among the earlier ones. */
  lemma KeyAbsent<V, W>(xs: seq<(Key, V)>, r: seq<(Key, W)>)
    requires |xs| > 0 && UniqueKeys(xs) && |r| == |xs| - 1
    requires forall i :: 0 <= i < |r| ==> r[i].0 == xs[i].0
    ensures Lookup(r, xs[|xs| - 1].0).None?
  {
    forall i | 0 <= i < |r| ensures r[i].0 != xs[|xs| - 1].0 {
      assert r[i].0 == xs[i].0;
    }
  }

  lemma ResultsAppend<V, W, E>(f: V -> Result<W, E>, xs: seq<(Key, V)>, r: seq<(Key, W)>, out: W)
    requires |xs| > 0 && |r| == |xs| - 1
    requires forall i :: 0 <= i < |r| ==> r[i].0 == xs[i].0 && f(xs[i].1) == Ok(r[i].1)
    requires f(xs[|xs| - 1].1) == Ok(out)
    ensures var r' := r + [(xs[|xs| - 1].0, out)];
      |r'| == |xs| && forall i :: 0 <= i < |r'| ==> r'[i].0 == xs[i].0 && f(xs[i].1) == Ok(r'[i].1)
  {
    var r' := r + [(xs[|xs| - 1].0, out)];
    forall i | 0 <= i < |r'|
      ensures r'[i].0 == xs[i].0 && f(xs[i].1) == Ok(r'[i].1)
    {
      if i < |r| {
        assert r'[i] == r[i];
      }
    }
  }

  /** `StoreEach` fails exactly when `f` fails on one of the values. */
  lemma {:induction false} StoreEachFails<V, W, E>(f: V -> Result<W, E>, xs: seq<(Key, V)>)
    ensures StoreEach(f, xs).Err? <==> exists i :: 0 <= i < |xs| && f(xs[i].1).Err?
    decreases |xs|
  {
    if |xs| > 0 {
      var n := |xs| - 1;
      var init := xs[..n];
      StoreEachFails(f, init);
      StoreEachStep(f, xs);
      assert forall i :: 0 <= i < n ==> init[i] == xs[i];
      if StoreEach(f, init).Err? {
        var i :| 0 <= i < n && f(init[i].1).Err?;
        assert xs[i] == init[i];
      } else if f(xs[n].1).Err? {
      } else {
        forall i | 0 <= i < |xs| ensures f(xs[i].1).Ok? {
          if i < n {
            assert xs[i] == init[i];
            assert !f(init[i].1).Err?;
          } else {
            assert i == n;
          }
        }
      }
    }
  }

  /** One step of `StoreEach`: it fails when the earlier values do or when
      the last one does. */
  lemma StoreEachStep<V, W, E>(f: V -> Result<W, E>, xs: seq<(Key, V)>)
    requires |xs| > 0
    ensures StoreEach(f, xs).Err?
      <==> StoreEach(f, xs[..|xs| - 1]).Err? || f(xs[|xs| - 1].1).Err?
  {
  }

  /** The first failure ends `StoreEach`: later values change nothing. */
  lemma {:induction false} StoreEachPrefixErr<V, W, E>(f: V -> Result<W, E>, xs: seq<(Key, V)>, n: nat)
    requires n <= |xs| && StoreEach(f, xs[..n]).Err?
    ensures StoreEach(f, xs) == StoreEach(f, xs[..n])
    decreases |xs|
  {
    if n < |xs| {
      var init := xs[..|xs| - 1];
      assert init[..n] == xs[..n];
      StoreEachPrefixErr(f, init, n);
    } else {
      assert xs[..n] == xs;
    }
  }
}
