/** The container's argument handling and doc-comment parsing, with
    reflection replaced by data: a PHP argument array is a sequence of
    key/value entries, and a reflected parameter is its name and an optional
    class hint. */
module DIParameters {
  import opened Wrappers
  import opened Php
  import opened DIRegistry

  /** A PHP array of arguments, in insertion order. */
  type Arguments = seq<(Key, Value)>

  /** A parameter as reflection shows it: its name, and the class of its
      type hint when it has one (`$param->getClass()`). */
  datatype Param = Param(name: string, hint: Option<string>)

  /** The new state of the container and the argument list `getParameters`
      builds, or the exception it throws. */
  datatype Resolved = Resolved(reg: Registry, result: Result<seq<Value>, Error>)

  // ---------------------------------------------------------------------
  // getParameters

  /** `isset($arguments[$name])`: present and not null. */
  predicate IsGiven(a: Arguments, name: string) {
    Lookup(a, StrKey(name)).Some? && Lookup(a, StrKey(name)).value != Null
  }

  /** `array_shift`: the first item and the rest; null from an empty list. */
  function Shift(q: seq<Value>): (r: (Value, seq<Value>))
    ensures |q| == 0 ==> r == (Null, [])
    ensures |q| > 0 ==> [r.0] + r.1 == q
  {
    if |q| == 0 then (Null, []) else (q[0], q[1..])
  }

  /** The loop of `getParameters` from parameter `params[0]` on, with the
      positional arguments not yet taken in `queue` and the arguments chosen
      so far in `acc`. */
  function Resolve(rt: Runtime, r: Registry, params: seq<Param>, args: Arguments,
                   queue: seq<Value>, acc: seq<Value>): (s: Resolved)
    requires Valid(r)
    ensures Valid(s.reg) && s.reg.keys == r.keys && r.frozen <= s.reg.frozen
    decreases |params|
  {
    if |params| == 0 then Resolved(r, Ok(acc + queue))
    else
      var p := params[0];
      if IsGiven(args, p.name) then
        Resolve(rt, r, params[1..], args, queue, acc + [Lookup(args, StrKey(p.name)).value])
      else if p.hint.Some? then
        var g := Get(rt, r, p.hint.value);
        GetChainKeeps(rt, r, p.hint.value, |r.keys|);
        if g.result.Err? then Resolved(g.reg, Err(g.result.error))
        else Resolve(rt, g.reg, params[1..], args, queue, acc + [g.result.value])
      else if |args| > 0 then
        var sh := Shift(queue);
        Resolve(rt, r, params[1..], args, sh.1, acc + [sh.0])
      else Resolved(r, Err(ParameterUnresolved))
  }

  /** `getParameters($reflectionFunction, $arguments)`. */
  function Parameters(rt: Runtime, r: Registry, params: seq<Param>, args: Arguments): Resolved
    requires Valid(r)
  {
    Resolve(rt, r, params, args, IntKeyed(args), [])
  }

  /** The argument chosen for a parameter given by name. */
  function GivenValue(a: Arguments, name: string): Value {
    Lookup(a, StrKey(name)).GetOr(Null)
  }

  /** The named arguments of `params`, in parameter order. */
  function GivenValues(a: Arguments, params: seq<Param>): (r: seq<Value>)
    ensures |r| == |params|
    ensures forall i :: 0 <= i < |params| ==> r[i] == GivenValue(a, params[i].name)
  {
    if |params| == 0 then [] else [GivenValue(a, params[0].name)] + GivenValues(a, params[1..])
  }

  lemma ResolveGivenStep(rt: Runtime, r: Registry, params: seq<Param>, args: Arguments,
                          queue: seq<Value>, acc: seq<Value>)
    requires Valid(r) && |params| > 0 && IsGiven(args, params[0].name)
    ensures Resolve(rt, r, params, args, queue, acc)
      == Resolve(rt, r, params[1..], args, queue, acc + [GivenValue(args, params[0].name)])
  {
  }

  lemma ResolveShiftStep(rt: Runtime, r: Registry, params: seq<Param>, args: Arguments,
                          queue: seq<Value>, acc: seq<Value>)
    requires Valid(r) && |params| > 0 && |args| > 0
    requires !IsGiven(args, params[0].name) && params[0].hint.None?
    ensures Resolve(rt, r, params, args, queue, acc)
      == Resolve(rt, r, params[1..], args, Shift(queue).1, acc + [Shift(queue).0])
  {
  }

  lemma ResolveHintStep(rt: Runtime, r: Registry, params: seq<Param>, args: Arguments,
                         queue: seq<Value>, acc: seq<Value>)
    requires Valid(r) && |params| > 0 && !IsGiven(args, params[0].name) && params[0].hint.Some?
    ensures var g := Get(rt, r, params[0].hint.value);
      && Valid(g.reg)
      && (g.result.Err? ==> Resolve(rt, r, params, args, queue, acc) == Resolved(g.reg, Err(g.result.error)))
      && (g.result.Ok? ==> Resolve(rt, r, params, args, queue, acc)
                           == Resolve(rt, g.reg, params[1..], args, queue, acc + [g.result.value]))
  {
    GetChainKeeps(rt, r, params[0].hint.value, |r.keys|);
  }

  lemma {:induction false} ResolveAllGiven(rt: Runtime, r: Registry, params: seq<Param>, args: Arguments,
                                           queue: seq<Value>, acc: seq<Value>)
    requires Valid(r)
    requires forall i :: 0 <= i < |params| ==> IsGiven(args, params[i].name)
    ensures Resolve(rt, r, params, args, queue, acc) == Resolved(r, Ok(acc + GivenValues(args, params) + queue))
    decreases |params|
  {
    if |params| > 0 {
      var v := GivenValue(args, params[0].name);
      ResolveGivenStep(rt, r, params, args, queue, acc);
      AllGivenTail(args, params);
      ResolveAllGiven(rt, r, params[1..], args, queue, acc + [v]);
      ConsGiven(args, params, acc, queue);
    } else {
      assert acc + GivenValues(args, params) + queue == acc + queue;
    }
  }

  lemma AllGivenTail(args: Arguments, params: seq<Param>)
    requires |params| > 0 && forall i :: 0 <= i < |params| ==> IsGiven(args, params[i].name)
    ensures IsGiven(args, params[0].name)
    ensures forall i :: 0 <= i < |params[1..]| ==> IsGiven(args, params[1..][i].name)
  {
    assert IsGiven(args, params[0].name);
    forall i | 0 <= i < |params[1..]| ensures IsGiven(args, params[1..][i].name) {
      assert params[1..][i] == params[i + 1];
    }
  }

  lemma ConsGiven(args: Arguments, params: seq<Param>, acc: seq<Value>, queue: seq<Value>)
    requires |params| > 0
    ensures acc + [GivenValue(args, params[0].name)] + GivenValues(args, params[1..]) + queue
      == acc + GivenValues(args, params) + queue
  {
    assert GivenValues(args, params) == [GivenValue(args, params[0].name)] + GivenValues(args, params[1..]);
  }

  /** Parameters all given by name take those arguments, in parameter order,
      followed by every positional argument; the container is not consulted. */
  lemma ParametersAllGiven(rt: Runtime, r: Registry, params: seq<Param>, args: Arguments)
    requires Valid(r)
    requires forall i :: 0 <= i < |params| ==> IsGiven(args, params[i].name)
    ensures Parameters(rt, r, params, args) == Resolved(r, Ok(GivenValues(args, params) + IntKeyed(args)))
  {
    ResolveAllGiven(rt, r, params, args, IntKeyed(args), []);
  }

  /** `n` shifts from `q`, null once it is empty, followed by what is left:
      so `q` extended with nulls to at least `n` items. */
  function Padded(q: seq<Value>, n: nat): (r: seq<Value>)
    ensures |r| == if |q| < n then n else |q|
    ensures r[..|q|] == q
    ensures forall i :: |q| <= i < |r| ==> r[i] == Null
    decreases n
  {
    if n == 0 then q
    else
      var sh := Shift(q);
      var rest := Padded(sh.1, n - 1);
      assert |q| > 0 ==> ([sh.0] + rest)[..|q|] == [sh.0] + rest[..|sh.1|];
      [sh.0] + rest
  }

  lemma {:induction false} ResolvePositional(rt: Runtime, r: Registry, params: seq<Param>, args: Arguments,
                                             queue: seq<Value>, acc: seq<Value>)
    requires Valid(r) && |args| > 0
    requires forall i :: 0 <= i < |params| ==> !IsGiven(args, params[i].name) && params[i].hint.None?
    ensures Resolve(rt, r, params, args, queue, acc) == Resolved(r, Ok(acc + Padded(queue, |params|)))
    decreases |params|
  {
    if |params| > 0 {
      var sh := Shift(queue);
      assert !IsGiven(args, params[0].name) && params[0].hint.None?;
      ResolveShiftStep(rt, r, params, args, queue, acc);
      ResolvePositional(rt, r, params[1..], args, sh.1, acc + [sh.0]);
      assert acc + [sh.0] + Padded(sh.1, |params| - 1) == acc + Padded(queue, |params|);
    }
  }

  /** Parameters with neither a named argument nor a class hint take the
      positional arguments in order, null once they run out, and the
      leftover positional arguments are appended. */
  lemma ParametersPositional(rt: Runtime, r: Registry, params: seq<Param>, args: Arguments)
    requires Valid(r) && |args| > 0
    requires forall i :: 0 <= i < |params| ==> !IsGiven(args, params[i].name) && params[i].hint.None?
    ensures Parameters(rt, r, params, args) == Resolved(r, Ok(Padded(IntKeyed(args), |params|)))
  {
    ResolvePositional(rt, r, params, args, IntKeyed(args), []);
    assert [] + Padded(IntKeyed(args), |params|) == Padded(IntKeyed(args), |params|);
  }

  /** A parameter with a class hint and no named argument is resolved by
      `get` of that class, with `get`'s effect on the container. */
  lemma ParameterFromContainer(rt: Runtime, r: Registry, p: Param, args: Arguments)
    requires Valid(r) && !IsGiven(args, p.name) && p.hint.Some?
    ensures var g := Get(rt, r, p.hint.value);
      && Parameters(rt, r, [p], args).reg == g.reg
      && (g.result.Err? ==> Parameters(rt, r, [p], args).result == Err(g.result.error))
      && (g.result.Ok? ==> Parameters(rt, r, [p], args).result == Ok([g.result.value] + IntKeyed(args)))
  {
    ResolveHintStep(rt, r, [p], args, IntKeyed(args), []);
    assert [p][1..] == [];
    var g := Get(rt, r, p.hint.value);
    if g.result.Ok? {
      assert Parameters(rt, r, [p], args) == Resolve(rt, g.reg, [], args, IntKeyed(args), [] + [g.result.value]);
      assert [] + [g.result.value] == [g.result.value];
    }
  }

  lemma {:induction false} ResolveNoArguments(rt: Runtime, r: Registry, params: seq<Param>,
                                              queue: seq<Value>, acc: seq<Value>)
    requires Valid(r)
    ensures Resolve(rt, r, params, [], queue, acc).result.Ok? ==>
      forall i :: 0 <= i < |params| ==> params[i].hint.Some?
    decreases |params|
  {
    if |params| > 0 && params[0].hint.Some? {
      var g := Get(rt, r, params[0].hint.value);
      GetChainKeeps(rt, r, params[0].hint.value, |r.keys|);
      if g.result.Ok? {
        ResolveNoArguments(rt, g.reg, params[1..], queue, acc + [g.result.value]);
        assert forall i :: 1 <= i < |params| ==> params[i] == params[1..][i - 1];
      }
    }
  }

  /** With no arguments at all, a parameter without a class hint makes
      `getParameters` throw; the first such parameter throws at once. */
  lemma ParametersNoArguments(rt: Runtime, r: Registry, params: seq<Param>)
    requires Valid(r)
    ensures Parameters(rt, r, params, []).result.Ok? ==> forall i :: 0 <= i < |params| ==> params[i].hint.Some?
    ensures |params| > 0 && params[0].hint.None? ==>
      Parameters(rt, r, params, []) == Resolved(r, Err(ParameterUnresolved))
  {
    ResolveNoArguments(rt, r, params, IntKeyed([]), []);
  }

  // ---------------------------------------------------------------------
  // getClassNameFromDocComment

  /** The characters of `[a-zA-Z0-9\\]`. */
  predicate IsClassChar(c: char) {
    'a' <= c <= 'z' || 'A' <= c <= 'Z' || '0' <= c <= '9' || c == '\\'
  }

  /** The match of `/^([a-zA-Z0-9\\]+)/`, or `""` when there is none. */
  function ClassToken(s: string): (r: string)
    ensures |r| <= |s| && r == s[..|r|]
    ensures forall i :: 0 <= i < |r| ==> IsClassChar(r[i])
    ensures |r| < |s| ==> !IsClassChar(s[|r|])
  {
    if |s| > 0 && IsClassChar(s[0]) then [s[0]] + ClassToken(s[1..]) else []
  }

  /** The class named after the first `@var` of a doc comment, without one
      leading backslash; none when there is no `@var` or no name after it. */
  function ClassNameFromDocComment(comment: string): Option<string> {
    match Find(comment, "@var")
    case None => None
    case Some(pos) => NameOfToken(ClassToken(LTrim(comment[pos + 4..])))
  }

  /** No class for an empty match; otherwise the match without one leading
      backslash. */
  function NameOfToken(tok: string): Option<string> {
    if |tok| == 0 then None
    else if tok[0] == '\\' then Some(tok[1..])
    else Some(tok)
  }

  lemma {:induction false} LTrimPrefix(ws: string, rest: string)
    requires forall i :: 0 <= i < |ws| ==> IsTrimmed(ws[i])
    requires |rest| > 0 && !IsTrimmed(rest[0])
    ensures LTrim(ws + rest) == rest
  {
    if |ws| > 0 {
      assert (ws + rest)[1..] == ws[1..] + rest;
      LTrimPrefix(ws[1..], rest);
    }
  }

  lemma {:induction false} ClassTokenPrefix(c: string, s: string)
    requires forall i :: 0 <= i < |c| ==> IsClassChar(c[i])
    requires |s| > 0 ==> !IsClassChar(s[0])
    ensures ClassToken(c + s) == c
  {
    if |c| > 0 {
      assert (c + s)[1..] == c[1..] + s;
      ClassTokenPrefix(c[1..], s);
    } else {
      assert c + s == s;
    }
  }

  /** No `@var` starts within `p`, even one running into a `@var` that
      follows it. */
  predicate NoEarlierMarker(p: string) {
    forall j: nat :: j < |p| ==> !OccursAt(p + "@var", "@var", j)
  }

  /** A prefix without `@` has no earlier `@var`. */
  lemma NoAtNoEarlierMarker(p: string)
    requires '@' !in p
    ensures NoEarlierMarker(p)
  {
    forall j: nat | j < |p| ensures !OccursAt(p + "@var", "@var", j) {
      assert (p + "@var")[j..j + 4][0] == p[j];
    }
  }

  /** A prefix in which no `@` is followed by `v` has no earlier `@var`. */
  lemma NoAtVNoEarlierMarker(p: string)
    requires forall j :: 0 <= j < |p| && p[j] == '@' ==> j + 1 < |p| && p[j + 1] != 'v'
    ensures NoEarlierMarker(p)
  {
    var q := p + "@var";
    forall j: nat | j < |p| ensures !OccursAt(q, "@var", j) {
      if j + 4 <= |q| && p[j] == '@' {
        assert q[j..j + 4][1] == p[j + 1];
      } else if j + 4 <= |q| {
        assert q[j..j + 4][0] == p[j];
      }
    }
  }

  lemma FindFirstMarker(p: string, rest: string)
    requires NoEarlierMarker(p)
    ensures Find(p + "@var" + rest, "@var") == Some(|p|)
  {
    var s := p + "@var" + rest;
    assert s[|p|..|p| + 4] == "@var";
    assert OccursAt(s, "@var", |p|);
    var q := p + "@var";
    forall j: nat | j < |p| ensures !OccursAt(s, "@var", j) {
      assert !OccursAt(q, "@var", j);
      assert forall k :: j <= k < j + 4 ==> s[k] == q[k];
      assert s[j..j + 4] == q[j..j + 4];
    }
  }

  lemma ClassNameAfterMarker(p: string, rest: string)
    requires NoEarlierMarker(p)
    ensures ClassNameFromDocComment(p + "@var" + rest) == NameOfToken(ClassToken(LTrim(rest)))
  {
    FindFirstMarker(p, rest);
    assert (p + "@var" + rest)[|p| + 4..] == rest;
  }

  lemma ClassNameOfToken(p: string, ws: string, name: string, s: string)
    requires NoEarlierMarker(p)
    requires forall i :: 0 <= i < |ws| ==> IsTrimmed(ws[i])
    requires |name| > 0 && forall i :: 0 <= i < |name| ==> IsClassChar(name[i])
    requires |s| > 0 ==> !IsClassChar(s[0])
    ensures ClassNameFromDocComment(p + "@var" + ws + name + s) == NameOfToken(name)
  {
    var rest := name + s;
    assert p + "@var" + ws + name + s == p + "@var" + (ws + rest);
    ClassNameAfterMarker(p, ws + rest);
    assert !IsTrimmed(rest[0]) by { assert rest[0] == name[0]; }
    LTrimPrefix(ws, rest);
    ClassTokenPrefix(name, s);
  }

  /** A comment whose first `@var` is followed by blanks and a class name
      yields that name, with or without its leading backslash. */
  lemma ClassNameRead(p: string, ws: string, c: string, s: string)
    requires NoEarlierMarker(p)
    requires forall i :: 0 <= i < |ws| ==> IsTrimmed(ws[i])
    requires |c| > 0 && c[0] != '\\' && forall i :: 0 <= i < |c| ==> IsClassChar(c[i])
    requires |s| > 0 ==> !IsClassChar(s[0])
    ensures ClassNameFromDocComment(p + "@var" + ws + c + s) == Some(c)
    ensures ClassNameFromDocComment(p + "@var" + ws + "\\" + c + s) == Some(c)
  {
    ClassNameOfToken(p, ws, c, s);
    var name := "\\" + c;
    assert forall i :: 0 <= i < |name| ==> IsClassChar(name[i]);
    ClassNameOfToken(p, ws, name, s);
    assert name[1..] == c;
    Regroup(p + "@var" + ws, "\\", c, s);
  }

  lemma Regroup(q: string, x: string, c: string, s: string)
    ensures q + x + c + s == q + (x + c) + s
  {
  }

  /** With no class name after the first `@var`, there is no class. */
  lemma ClassNameAbsent(p: string, ws: string, s: string)
    requires NoEarlierMarker(p)
    requires forall i :: 0 <= i < |ws| ==> IsTrimmed(ws[i])
    requires |s| > 0 && !IsClassChar(s[0]) && !IsTrimmed(s[0])
    ensures ClassNameFromDocComment(p + "@var" + ws + s) == None
  {
    assert p + "@var" + ws + s == p + "@var" + (ws + s);
    ClassNameAfterMarker(p, ws + s);
    LTrimPrefix(ws, s);
    assert ClassToken(s) == "";
  }

  /** A comment without `@var` names no class. */
  lemma ClassNameNoMarker(comment: string)
    requires forall j: nat :: !OccursAt(comment, "@var", j)
    ensures ClassNameFromDocComment(comment) == None
  {
  }

  /** The comment `inject` reads: `@Autowired` before `@var \\C`, for a
      class name `C` such as `Foo`. */
  lemma ClassNameAutowired(c: string)
    requires |c| > 0 && c[0] != '\\' && forall i :: 0 <= i < |c| ==> IsClassChar(c[i])
    ensures ClassNameFromDocComment("/** @Autowired @var \\" + c + " */") == Some(c)
  {
    var p := "/** @Autowired ";
    AutowiredPrefix();
    NoAtVNoEarlierMarker(p);
    ClassNameRead(p, " ", c, " */");
  }

  lemma AutowiredPrefix()
    ensures forall j :: 0 <= j < |"/** @Autowired "| && "/** @Autowired "[j] == '@' ==> j == 4
    ensures "/** @Autowired " + "@var" + " " + "\\" == "/** @Autowired @var \\"
  {
  }
}
