/** The formatted map: a map from keys to values rendered as aligned lines in key order,
    and its construction from a packit environment, whose NAME.operation keys are
    collapsed into one display entry per variable. */
module Scribe {
  import opened Text

  /** The values a formatted map holds: strings and non-negative integers. */
  datatype Value = Str(s: string) | Int(n: nat)

  type FormattedMap = map<string, Value>

  /** The text %v prints for a value. */
  function Display(v: Value): (s: string)
    ensures v.Str? ==> s == v.s
    ensures v.Int? ==> IsDigits(s) && DecimalValue(s) == v.n
  {
    match v
    case Str(s) => s
    case Int(n) => DecimalRoundTrip(n); Decimal(n)
  }

  /** The column the arrows line up on: the length of the longest key. */
  function Width(keys: seq<string>): (w: nat)
    ensures forall i :: 0 <= i < |keys| ==> |keys[i]| <= w
    ensures keys == [] ==> w == 0
    ensures keys != [] ==> exists i :: 0 <= i < |keys| && |keys[i]| == w
    decreases |keys|
  {
    if keys == [] then 0
    else
      var w := Width(keys[1..]);
      if |keys[0]| > w then |keys[0]| else w
  }

  /** One line of the rendering: the key padded to width w, then ` -> "`, the value, `"`. */
  function Line(key: string, w: nat, v: Value): (line: string)
    ensures |line| == (if |key| < w then w else |key|) + 6 + |Display(v)|
    ensures line[..|key|] == key
    ensures line[|line| - 1] == '"'
  {
    PadRight(key, w) + " -> \"" + Display(v) + "\""
  }

  /** The lines of the rendering, one per key, in increasing key order. */
  function Lines(m: FormattedMap): (lines: seq<string>)
    ensures |lines| == |m|
  {
    var ks := SortedKeys(m.Keys);
    var w := Width(ks);
    seq(|ks|, i requires 0 <= i < |ks| => Line(ks[i], w, m[ks[i]]))
  }

  /** FormattedMap.String: the lines joined by newlines; empty exactly for the empty map. */
  function Render(m: FormattedMap): (r: string)
    ensures r == "" <==> m == map[]
  {
    var lines := Lines(m);
    assert m != map[] ==> |m| > 0 && |lines[0]| > 0;
    JoinLines(lines)
  }

  /** `line` shows `key` and `v` in the layout of the rendering: the key, spaces up to
      column w, then ` -> "`, the value's text and a closing quote. */
  predicate LaidOut(line: string, key: string, w: nat, v: Value)
  {
    && |key| <= w <= |line|
    && line[..|key|] == key
    && (forall j :: |key| <= j < w ==> line[j] == ' ')
    && line[w..] == " -> \"" + Display(v) + "\""
  }

  /** Stated for RenderLayout: the definitions of Line, PadRight and LaidOut prove it directly. */
  lemma LineLayout(key: string, w: nat, v: Value)
    requires |key| <= w
    ensures LaidOut(Line(key, w, v), key, w, v)
    ensures '\n' !in key && '\n' !in Display(v) ==> '\n' !in Line(key, w, v)
  {
  }

  /** The layout of the rendering: one line per key, the keys in increasing order, each line
      laid out with the arrow at the column of the longest key's length. */
  lemma RenderLayout(m: FormattedMap)
    requires m != map[]
    requires forall k :: k in m ==> '\n' !in k && '\n' !in Display(m[k])
    ensures var lines, ks := SplitLines(Render(m)), SortedKeys(m.Keys);
      && |lines| == |m| == |ks|
      && Increasing(ks) && (forall k :: k in m <==> k in ks)
      && forall i :: 0 <= i < |lines| ==> LaidOut(lines[i], ks[i], Width(ks), m[ks[i]])
  {
    var lines, ks := Lines(m), SortedKeys(m.Keys);
    var w := Width(ks);
    forall i | 0 <= i < |lines|
      ensures '\n' !in lines[i] && LaidOut(lines[i], ks[i], w, m[ks[i]])
    {
      LineLayout(ks[i], w, m[ks[i]]);
    }
    assert |m| > 0;
    SplitJoin(lines);
  }

  /** The test's rendering: keys in order whatever the literal's order, padded to "second". */
  lemma RenderExample()
    ensures Render(map["third" := Int(3), "first" := Int(1), "second" := Int(2)])
         == "first  -> \"1\"\nsecond -> \"2\"\nthird  -> \"3\""
  {
    var m := map["third" := Int(3), "first" := Int(1), "second" := Int(2)];
    ExampleLineSeq(m);
    assert Render(m) == JoinLines(Lines(m));
    ExampleJoined(["first  -> \"1\"", "second -> \"2\"", "third  -> \"3\""]);
  }

  lemma ExampleJoined(lines: seq<string>)
    requires lines == ["first  -> \"1\"", "second -> \"2\"", "third  -> \"3\""]
    ensures JoinLines(lines) == "first  -> \"1\"\nsecond -> \"2\"\nthird  -> \"3\""
  {
    var l0, l1, l2 := lines[0], lines[1], lines[2];
    assert lines[1..] == [l1, l2] && lines[1..][1..] == [l2];
    assert JoinLines(lines[1..][1..]) == l2;
    assert JoinLines(lines[1..]) == l1 + "\n" + l2;
    assert JoinLines(lines) == l0 + "\n" + (l1 + "\n" + l2);
    ExampleConcat(l0, l1, l2);
  }

  lemma ExampleConcat(l0: string, l1: string, l2: string)
    requires l0 == "first  -> \"1\"" && l1 == "second -> \"2\"" && l2 == "third  -> \"3\""
    ensures l0 + "\n" + (l1 + "\n" + l2) == "first  -> \"1\"\nsecond -> \"2\"\nthird  -> \"3\""
  {
  }

  lemma ExampleLineSeq(m: FormattedMap)
    requires m == map["third" := Int(3), "first" := Int(1), "second" := Int(2)]
    ensures Lines(m) == ["first  -> \"1\"", "second -> \"2\"", "third  -> \"3\""]
  {
    var ks := ["first", "second", "third"];
    ExampleKeysSorted(m, ks);
    ExampleWidth(ks);
    ListedLines(m, ks, 6);
    assert m[ks[0]] == Int(1) && m[ks[1]] == Int(2) && m[ks[2]] == Int(3);
    ExampleLines();
    SeqOfThree(Lines(m));
  }

  lemma SeqOfThree(lines: seq<string>)
    requires |lines| == 3
    ensures lines == [lines[0], lines[1], lines[2]]
  {
  }

  lemma ListedLines(m: FormattedMap, ks: seq<string>, w: nat)
    requires SortedKeys(m.Keys) == ks && Width(ks) == w
    ensures |Lines(m)| == |ks|
    ensures forall i :: 0 <= i < |ks| ==> Lines(m)[i] == Line(ks[i], w, m[ks[i]])
  {
  }

  lemma ExampleWidth(ks: seq<string>)
    requires ks == ["first", "second", "third"]
    ensures Width(ks) == 6
  {
    assert ks[1..] == ["second", "third"] && ks[1..][1..] == ["third"];
  }

  lemma ExampleKeysSorted(m: FormattedMap, ks: seq<string>)
    requires m == map["third" := Int(3), "first" := Int(1), "second" := Int(2)]
    requires ks == ["first", "second", "third"]
    ensures SortedKeys(m.Keys) == ks
  {
    assert Less("first", "second") && Less("first", "third") && Less("second", "third");
    assert m.Keys == {"first", "second", "third"};
    SortedKeysUnique(ks, m.Keys);
  }

  lemma ExampleLines()
    ensures Line("first", 6, Int(1)) == "first  -> \"1\""
    ensures Line("second", 6, Int(2)) == "second -> \"2\""
    ensures Line("third", 6, Int(3)) == "third  -> \"3\""
  {
    assert Decimal(1) == "1" && Decimal(2) == "2" && Decimal(3) == "3";
    assert PadRight("first", 6) == "first " && PadRight("third", 6) == "third ";
  }

  // ---- Construction from an environment ----

  /** An environment: keys NAME.operation, or plain variable names, mapped to strings. */
  type Environment = map<string, string>

  /** The index of the first '.' of k, or |k| when it has none. */
  function DotIndex(k: string): (i: nat)
    ensures i <= |k|
    ensures i < |k| ==> k[i] == '.'
    ensures forall j :: 0 <= j < i ==> k[j] != '.'
    decreases |k|
  {
    if k == [] || k[0] == '.' then 0 else 1 + DotIndex(k[1..])
  }

  /** The operations an environment key may name after its first dot. */
  const Operations: set<string> := {"override", "default", "prepend", "append", "delim"}

  /** The key NAME.op. */
  function KeyOf(name: string, op: string): string
  {
    name + "." + op
  }

  /** k has the form NAME.operation. */
  predicate IsOperationKey(k: string)
    ensures IsOperationKey(k) ==> '.' in k && k == KeyOf(NameOf(k), OperationOf(k))
  {
    DotIndex(k) < |k| && k[DotIndex(k) + 1..] in Operations
  }

  /** The variable name of a key: everything before its first dot. */
  function NameOf(k: string): (name: string)
    ensures |name| <= |k| && k[..|name|] == name && '.' !in name
    ensures |name| < |k| ==> k[|name|] == '.'
  {
    k[..DotIndex(k)]
  }

  /** The operation of a key: everything after its first dot. */
  function OperationOf(k: string): (op: string)
    requires DotIndex(k) < |k|
    ensures k == NameOf(k) + "." + op
  {
    CutAt(k, DotIndex(k));
    k[DotIndex(k) + 1..]
  }

  /** NAME.op splits back into NAME and op when NAME has no dot. */
  lemma SplitKey(name: string, op: string)
    requires '.' !in name
    ensures DotIndex(KeyOf(name, op)) == |name|
    ensures NameOf(KeyOf(name, op)) == name && OperationOf(KeyOf(name, op)) == op
    ensures IsOperationKey(KeyOf(name, op)) <==> op in Operations
  {
    var k := KeyOf(name, op);
    assert k[|name|] == '.';
    assert forall j :: 0 <= j < |name| ==> k[j] == name[j];
  }

  /** Stated for OperationOf: the sequence split at the dot, which the solver proves directly. */
  lemma CutAt(k: string, i: nat)
    requires i < |k| && k[i] == '.'
    ensures k == k[..i] + "." + k[i + 1..]
  {
  }

  /** A key with an operation is its name, a dot and its operation, and the name has no dot.
      A corollary of the contracts of NameOf and OperationOf, kept as the converse of SplitKey. */
  lemma JoinKey(k: string)
    requires DotIndex(k) < |k|
    ensures '.' !in NameOf(k) && '.' in k
    ensures k == KeyOf(NameOf(k), OperationOf(k))
  {
  }

  /** `name` is a variable that env sets by override, default, prepend or append. */
  predicate IsVariable(env: Environment, name: string)
  {
    && '.' !in name
    && (|| KeyOf(name, "override") in env || KeyOf(name, "default") in env
        || KeyOf(name, "prepend") in env || KeyOf(name, "append") in env)
  }

  /** The delimiter of a variable; empty when env gives none. */
  function Delimiter(env: Environment, name: string): string
  {
    if KeyOf(name, "delim") in env then env[KeyOf(name, "delim")] else ""
  }

  /** The display value of a variable: an override or default value as it is; otherwise the
      prepended value, then `$NAME`, then the appended value, with the delimiter between the
      parts present. */
  function Resolve(env: Environment, name: string): (r: string)
    requires IsVariable(env, name)
    ensures KeyOf(name, "override") in env ==> r == env[KeyOf(name, "override")]
    ensures KeyOf(name, "override") !in env && KeyOf(name, "default") in env ==> r == env[KeyOf(name, "default")]
    ensures KeyOf(name, "override") !in env && KeyOf(name, "default") !in env ==>
      var d := Delimiter(env, name);
      var pre, app := KeyOf(name, "prepend"), KeyOf(name, "append");
      r == (if pre in env then env[pre] + d else "") + ("$" + name) + (if app in env then d + env[app] else "")
  {
    var d := Delimiter(env, name);
    var pre, app := KeyOf(name, "prepend"), KeyOf(name, "append");
    if KeyOf(name, "override") in env then env[KeyOf(name, "override")]
    else if KeyOf(name, "default") in env then env[KeyOf(name, "default")]
    else if pre in env && app in env then env[pre] + d + "$" + name + d + env[app]
    else if pre in env then env[pre] + d + "$" + name
    else "$" + name + d + env[app]
  }

  /** The names of the variables env sets by an operation other than delim: exactly the
      names that IsVariable accepts. */
  function Variables(env: Environment): (names: set<string>)
    ensures forall n :: n in names <==> IsVariable(env, n)
  {
    VariableNames(env);
    set k | k in env && IsOperationKey(k) && OperationOf(k) != "delim" :: NameOf(k)
  }

  lemma VariableNames(env: Environment)
    ensures var names := set k | k in env && IsOperationKey(k) && OperationOf(k) != "delim" :: NameOf(k);
      forall n :: n in names <==> IsVariable(env, n)
  {
    var names := set k | k in env && IsOperationKey(k) && OperationOf(k) != "delim" :: NameOf(k);
    forall k | k in env && IsOperationKey(k) && OperationOf(k) != "delim"
      ensures IsVariable(env, NameOf(k))
    {
      JoinKey(k);
    }
    forall n | IsVariable(env, n)
      ensures n in names
    {
      var op := if KeyOf(n, "override") in env then "override"
                else if KeyOf(n, "default") in env then "default"
                else if KeyOf(n, "prepend") in env then "prepend"
                else "append";
      SplitKey(n, op);
      assert KeyOf(n, op) in env;
    }
  }

  /** NewFormattedMapFromEnvironment: one entry per variable, holding its resolved value,
      and every key without an operation copied through; no key with an operation (a
      .delim key among them) is an entry of its own. */
  function NewFormattedMapFromEnvironment(env: Environment): (fm: FormattedMap)
    ensures forall k :: k in fm <==> (k in env && !IsOperationKey(k)) || IsVariable(env, k)
    ensures forall k :: k in fm && IsVariable(env, k) ==> fm[k] == Str(Resolve(env, k))
    ensures forall k :: k in fm && !IsVariable(env, k) ==> k in env && fm[k] == Str(env[k])
    ensures forall k :: k in env && IsOperationKey(k) ==> k !in fm
  {
    var plain := map k | k in env && !IsOperationKey(k) :: Str(env[k]);
    plain + map n | n in Variables(env) :: Str(Resolve(env, n))
  }

  // The four rules below are corollaries of the contracts of NewFormattedMapFromEnvironment
  // and Resolve; each states one rule of the derivation on the derived map itself.

  /** An override value, or a default value when there is no override, is shown as it is. */
  lemma OverrideOrDefaultShown(env: Environment, name: string, op: string)
    requires '.' !in name && KeyOf(name, op) in env
    requires op == "override" || (op == "default" && KeyOf(name, "override") !in env)
    ensures var fm := NewFormattedMapFromEnvironment(env);
      name in fm && fm[name] == Str(env[KeyOf(name, op)])
  {
  }

  /** A prepended value is shown before `$NAME`, with the delimiter between them. */
  lemma PrependShown(env: Environment, name: string)
    requires '.' !in name && KeyOf(name, "prepend") in env
    requires KeyOf(name, "append") !in env && KeyOf(name, "override") !in env && KeyOf(name, "default") !in env
    ensures var fm := NewFormattedMapFromEnvironment(env);
      name in fm && fm[name] == Str(env[KeyOf(name, "prepend")] + Delimiter(env, name) + "$" + name)
  {
  }

  /** An appended value is shown after `$NAME`, with the delimiter between them. */
  lemma AppendShown(env: Environment, name: string)
    requires '.' !in name && KeyOf(name, "append") in env
    requires KeyOf(name, "prepend") !in env && KeyOf(name, "override") !in env && KeyOf(name, "default") !in env
    ensures var fm := NewFormattedMapFromEnvironment(env);
      name in fm && fm[name] == Str("$" + name + Delimiter(env, name) + env[KeyOf(name, "append")])
  {
  }

  /** Prepended and appended values are shown on both sides of `$NAME`, each separated from
      it by the delimiter. */
  lemma PrependAppendShown(env: Environment, name: string)
    requires '.' !in name && KeyOf(name, "prepend") in env && KeyOf(name, "append") in env
    requires KeyOf(name, "override") !in env && KeyOf(name, "default") !in env
    ensures var fm, d := NewFormattedMapFromEnvironment(env), Delimiter(env, name);
      name in fm && fm[name] == Str(env[KeyOf(name, "prepend")] + d + "$" + name + d + env[KeyOf(name, "append")])
  {
  }

  lemma NoDotNoOperation(k: string)
    requires '.' !in k
    ensures !IsOperationKey(k)
  {
    assert forall j :: 0 <= j < |k| ==> k[j] != '.';
  }

  /** An environment with no operation keys is copied through unchanged. */
  lemma PlainCopied(env: Environment)
    requires forall k :: k in env ==> !IsOperationKey(k)
    ensures NewFormattedMapFromEnvironment(env) == map k | k in env :: Str(env[k])
  {
    forall k | '.' !in k
      ensures !IsVariable(env, k)
    {
      SplitKey(k, "override");
      SplitKey(k, "default");
      SplitKey(k, "prepend");
      SplitKey(k, "append");
    }
  }

  /** Two keys NAME.op with dot-free names are equal only for equal names and operations. */
  lemma KeyOfInjective(n1: string, o1: string, n2: string, o2: string)
    requires '.' !in n1 && '.' !in n2 && KeyOf(n1, o1) == KeyOf(n2, o2)
    ensures n1 == n2 && o1 == o2
  {
    SplitKey(n1, o1);
    SplitKey(n2, o2);
  }

  /** The environment of the test that exercises every operation, for any variable names
      and values: a variable with an override, one with a default, one with a prepend, one
      with an append and one with both, the last three with a delimiter. */
  function OperationsEnvironment(o: string, d: string, p: string, a: string, b: string,
                                 v: string, pv: string, av: string, delim: string): Environment
  {
    map[KeyOf(o, "override") := v,
        KeyOf(d, "default") := v,
        KeyOf(p, "prepend") := v,
        KeyOf(p, "delim") := delim,
        KeyOf(a, "append") := v,
        KeyOf(a, "delim") := delim,
        KeyOf(b, "append") := av,
        KeyOf(b, "delim") := delim,
        KeyOf(b, "prepend") := pv]
  }

  /** Every key of the example environment has an operation. */
  lemma ExampleOperationKeys(o: string, d: string, p: string, a: string, b: string,
                             v: string, pv: string, av: string, delim: string)
    requires '.' !in o && '.' !in d && '.' !in p && '.' !in a && '.' !in b
    ensures forall k :: k in OperationsEnvironment(o, d, p, a, b, v, pv, av, delim) ==> IsOperationKey(k)
  {
    forall k | k in OperationsEnvironment(o, d, p, a, b, v, pv, av, delim)
      ensures IsOperationKey(k)
    {
      var n, op :| n in {o, d, p, a, b} && op in Operations && k == KeyOf(n, op);
      SplitKey(n, op);
    }
  }

  /** The name and operation pairs the example environment sets. */
  predicate ExamplePair(o: string, d: string, p: string, a: string, b: string, n: string, op: string)
  {
    || (n == o && op == "override")
    || (n == d && op == "default")
    || (n == p && (op == "prepend" || op == "delim"))
    || (n == a && (op == "append" || op == "delim"))
    || (n == b && (op == "append" || op == "delim" || op == "prepend"))
  }

  /** The value the example environment gives a pair. */
  function ExampleValue(b: string, v: string, pv: string, av: string, delim: string, n: string, op: string): string
  {
    if op == "delim" then delim
    else if n == b && op == "prepend" then pv
    else if n == b && op == "append" then av
    else v
  }

  predicate DotFree(o: string, d: string, p: string, a: string, b: string)
  {
    '.' !in o && '.' !in d && '.' !in p && '.' !in a && '.' !in b
  }

  predicate Distinct(o: string, d: string, p: string, a: string, b: string)
  {
    && o != d && o != p && o != a && o != b
    && d != p && d != a && d != b
    && p != a && p != b
    && a != b
  }

  /** A key NAME.op of the example environment is one of its pairs. */
  lemma ExampleKeyPair(o: string, d: string, p: string, a: string, b: string,
                       v: string, pv: string, av: string, delim: string, n: string, op: string)
    requires DotFree(o, d, p, a, b) && '.' !in n
    ensures KeyOf(n, op) in OperationsEnvironment(o, d, p, a, b, v, pv, av, delim) ==> ExamplePair(o, d, p, a, b, n, op)
  {
    var key := KeyOf(n, op);
    if key == KeyOf(o, "override") {
      KeyOfInjective(n, op, o, "override");
    } else if key == KeyOf(d, "default") {
      KeyOfInjective(n, op, d, "default");
    } else if key == KeyOf(p, "prepend") || key == KeyOf(p, "delim") {
      KeyOfInjective(n, op, p, if key == KeyOf(p, "prepend") then "prepend" else "delim");
    } else if key == KeyOf(a, "append") || key == KeyOf(a, "delim") {
      KeyOfInjective(n, op, a, if key == KeyOf(a, "append") then "append" else "delim");
    } else if key == KeyOf(b, "append") || key == KeyOf(b, "delim") || key == KeyOf(b, "prepend") {
      var op' := if key == KeyOf(b, "append") then "append"
                 else if key == KeyOf(b, "delim") then "delim"
                 else "prepend";
      KeyOfInjective(n, op, b, op');
    }
  }

  /** Each pair of the example environment holds its own value. */
  lemma ExampleEntry(o: string, d: string, p: string, a: string, b: string,
                     v: string, pv: string, av: string, delim: string, n: string, op: string)
    requires DotFree(o, d, p, a, b) && Distinct(o, d, p, a, b)
    requires ExamplePair(o, d, p, a, b, n, op)
    ensures var env := OperationsEnvironment(o, d, p, a, b, v, pv, av, delim);
      KeyOf(n, op) in env && env[KeyOf(n, op)] == ExampleValue(b, v, pv, av, delim, n, op)
  {
    var key := KeyOf(n, op);
    forall n', op' | '.' !in n' && key == KeyOf(n', op')
      ensures n' == n && op' == op
    {
      KeyOfInjective(n, op, n', op');
    }
  }

  /** The variables of the example environment are exactly its five names. */
  lemma ExampleVariables(o: string, d: string, p: string, a: string, b: string,
                         v: string, pv: string, av: string, delim: string)
    requires DotFree(o, d, p, a, b)
    ensures forall k :: IsVariable(OperationsEnvironment(o, d, p, a, b, v, pv, av, delim), k) <==> k in {o, d, p, a, b}
  {
    var env := OperationsEnvironment(o, d, p, a, b, v, pv, av, delim);
    forall k | IsVariable(env, k)
      ensures k in {o, d, p, a, b}
    {
      var op := if KeyOf(k, "override") in env then "override"
                else if KeyOf(k, "default") in env then "default"
                else if KeyOf(k, "prepend") in env then "prepend"
                else "append";
      ExampleKeyPair(o, d, p, a, b, v, pv, av, delim, k, op);
    }
    assert IsVariable(env, o) && IsVariable(env, d) && IsVariable(env, p);
    assert IsVariable(env, a) && IsVariable(env, b);
  }

  /** The derived map of the example has one entry per variable and none other. */
  lemma ExampleMapKeys(o: string, d: string, p: string, a: string, b: string,
                       v: string, pv: string, av: string, delim: string)
    requires DotFree(o, d, p, a, b)
    ensures NewFormattedMapFromEnvironment(OperationsEnvironment(o, d, p, a, b, v, pv, av, delim)).Keys == {o, d, p, a, b}
  {
    ExampleOperationKeys(o, d, p, a, b, v, pv, av, delim);
    ExampleVariables(o, d, p, a, b, v, pv, av, delim);
    OnlyVariables(OperationsEnvironment(o, d, p, a, b, v, pv, av, delim), {o, d, p, a, b});
  }

  /** When every key has an operation, the derived map holds exactly the variables. */
  lemma OnlyVariables(env: Environment, names: set<string>)
    requires forall k :: k in env ==> IsOperationKey(k)
    requires forall k :: IsVariable(env, k) <==> k in names
    ensures NewFormattedMapFromEnvironment(env).Keys == names
  {
  }

  lemma ExampleOverride(o: string, d: string, p: string, a: string, b: string,
                   v: string, pv: string, av: string, delim: string)
    requires DotFree(o, d, p, a, b) && Distinct(o, d, p, a, b)
    ensures var fm := NewFormattedMapFromEnvironment(OperationsEnvironment(o, d, p, a, b, v, pv, av, delim));
      o in fm && fm[o] == Str(v)
  {
    var env := OperationsEnvironment(o, d, p, a, b, v, pv, av, delim);
    ExampleEntry(o, d, p, a, b, v, pv, av, delim, o, "override");
    OverrideOrDefaultShown(env, o, "override");
  }

  lemma ExampleDefault(o: string, d: string, p: string, a: string, b: string,
                   v: string, pv: string, av: string, delim: string)
    requires DotFree(o, d, p, a, b) && Distinct(o, d, p, a, b)
    ensures var fm := NewFormattedMapFromEnvironment(OperationsEnvironment(o, d, p, a, b, v, pv, av, delim));
      d in fm && fm[d] == Str(v)
  {
    var env := OperationsEnvironment(o, d, p, a, b, v, pv, av, delim);
    ExampleEntry(o, d, p, a, b, v, pv, av, delim, d, "default");
    ExampleKeyPair(o, d, p, a, b, v, pv, av, delim, d, "override");
    OverrideOrDefaultShown(env, d, "default");
  }

  lemma ExamplePrepend(o: string, d: string, p: string, a: string, b: string,
                   v: string, pv: string, av: string, delim: string)
    requires DotFree(o, d, p, a, b) && Distinct(o, d, p, a, b)
    ensures var fm := NewFormattedMapFromEnvironment(OperationsEnvironment(o, d, p, a, b, v, pv, av, delim));
      p in fm && fm[p] == Str(v + delim + "$" + p)
  {
    var env := OperationsEnvironment(o, d, p, a, b, v, pv, av, delim);
    ExampleEntry(o, d, p, a, b, v, pv, av, delim, p, "prepend");
    ExampleEntry(o, d, p, a, b, v, pv, av, delim, p, "delim");
    ExampleKeyPair(o, d, p, a, b, v, pv, av, delim, p, "append");
    ExampleKeyPair(o, d, p, a, b, v, pv, av, delim, p, "override");
    ExampleKeyPair(o, d, p, a, b, v, pv, av, delim, p, "default");
    PrependShown(env, p);
  }

  lemma ExampleAppend(o: string, d: string, p: string, a: string, b: string,
                   v: string, pv: string, av: string, delim: string)
    requires DotFree(o, d, p, a, b) && Distinct(o, d, p, a, b)
    ensures var fm := NewFormattedMapFromEnvironment(OperationsEnvironment(o, d, p, a, b, v, pv, av, delim));
      a in fm && fm[a] == Str("$" + a + delim + v)
  {
    var env := OperationsEnvironment(o, d, p, a, b, v, pv, av, delim);
    ExampleEntry(o, d, p, a, b, v, pv, av, delim, a, "append");
    ExampleEntry(o, d, p, a, b, v, pv, av, delim, a, "delim");
    ExampleKeyPair(o, d, p, a, b, v, pv, av, delim, a, "prepend");
    ExampleKeyPair(o, d, p, a, b, v, pv, av, delim, a, "override");
    ExampleKeyPair(o, d, p, a, b, v, pv, av, delim, a, "default");
    AppendShown(env, a);
  }

  lemma ExampleBoth(o: string, d: string, p: string, a: string, b: string,
                   v: string, pv: string, av: string, delim: string)
    requires DotFree(o, d, p, a, b) && Distinct(o, d, p, a, b)
    ensures var fm := NewFormattedMapFromEnvironment(OperationsEnvironment(o, d, p, a, b, v, pv, av, delim));
      b in fm && fm[b] == Str(pv + delim + "$" + b + delim + av)
  {
    var env := OperationsEnvironment(o, d, p, a, b, v, pv, av, delim);
    ExampleEntry(o, d, p, a, b, v, pv, av, delim, b, "prepend");
    ExampleEntry(o, d, p, a, b, v, pv, av, delim, b, "append");
    ExampleEntry(o, d, p, a, b, v, pv, av, delim, b, "delim");
    ExampleKeyPair(o, d, p, a, b, v, pv, av, delim, b, "override");
    ExampleKeyPair(o, d, p, a, b, v, pv, av, delim, b, "default");
    PrependAppendShown(env, b);
  }

  /** Override and default values as they are, prepend and append around `$NAME` with the
      delimiter, one entry per variable and none for any .delim key. */
  lemma OperationsExample(o: string, d: string, p: string, a: string, b: string,
                          v: string, pv: string, av: string, delim: string)
    requires DotFree(o, d, p, a, b) && Distinct(o, d, p, a, b)
    ensures NewFormattedMapFromEnvironment(OperationsEnvironment(o, d, p, a, b, v, pv, av, delim)) == map[
      o := Str(v),
      d := Str(v),
      p := Str(v + delim + "$" + p),
      a := Str("$" + a + delim + v),
      b := Str(pv + delim + "$" + b + delim + av)]
  {
    ExampleMapKeys(o, d, p, a, b, v, pv, av, delim);
    ExampleOverride(o, d, p, a, b, v, pv, av, delim);
    ExampleDefault(o, d, p, a, b, v, pv, av, delim);
    ExamplePrepend(o, d, p, a, b, v, pv, av, delim);
    ExampleAppend(o, d, p, a, b, v, pv, av, delim);
    ExampleBoth(o, d, p, a, b, v, pv, av, delim);
    var fm := NewFormattedMapFromEnvironment(OperationsEnvironment(o, d, p, a, b, v, pv, av, delim));
    FiveEntries(fm, o, d, p, a, b);
  }

  /** A map on five distinct keys is the display of its five entries. */
  lemma FiveEntries(fm: FormattedMap, o: string, d: string, p: string, a: string, b: string)
    requires Distinct(o, d, p, a, b) && fm.Keys == {o, d, p, a, b}
    ensures fm == map[o := fm[o], d := fm[d], p := fm[p], a := fm[a], b := fm[b]]
  {
  }

  lemma TestNames()
    ensures DotFree("OVERRIDE", "DEFAULT", "PREPEND", "APPEND", "BOTH")
    ensures Distinct("OVERRIDE", "DEFAULT", "PREPEND", "APPEND", "BOTH")
  {
  }

  lemma TestEnvironment()
    ensures OperationsEnvironment("OVERRIDE", "DEFAULT", "PREPEND", "APPEND", "BOTH",
                                  "some-value", "prepended-value", "appended-value", ":") == map[
      "OVERRIDE.override" := "some-value",
      "DEFAULT.default" := "some-value",
      "PREPEND.prepend" := "some-value",
      "PREPEND.delim" := ":",
      "APPEND.append" := "some-value",
      "APPEND.delim" := ":",
      "BOTH.append" := "appended-value",
      "BOTH.delim" := ":",
      "BOTH.prepend" := "prepended-value"]
  {
    assert KeyOf("OVERRIDE", "override") == "OVERRIDE.override";
    assert KeyOf("DEFAULT", "default") == "DEFAULT.default";
    assert KeyOf("PREPEND", "prepend") == "PREPEND.prepend";
    assert KeyOf("PREPEND", "delim") == "PREPEND.delim";
    assert KeyOf("APPEND", "append") == "APPEND.append";
    assert KeyOf("APPEND", "delim") == "APPEND.delim";
    assert KeyOf("BOTH", "append") == "BOTH.append";
    assert KeyOf("BOTH", "delim") == "BOTH.delim";
    assert KeyOf("BOTH", "prepend") == "BOTH.prepend";
  }

  lemma TestValues()
    ensures "some-value" + ":" + "$" + "PREPEND" == "some-value:$PREPEND"
    ensures "$" + "APPEND" + ":" + "some-value" == "$APPEND:some-value"
    ensures "prepended-value" + ":" + "$" + "BOTH" + ":" + "appended-value" == "prepended-value:$BOTH:appended-value"
  {
  }

  /** The test with every operation, with its own names and values. */
  lemma EnvironmentExample()
    ensures NewFormattedMapFromEnvironment(map[
      "OVERRIDE.override" := "some-value",
      "DEFAULT.default" := "some-value",
      "PREPEND.prepend" := "some-value",
      "PREPEND.delim" := ":",
      "APPEND.append" := "some-value",
      "APPEND.delim" := ":",
      "BOTH.append" := "appended-value",
      "BOTH.delim" := ":",
      "BOTH.prepend" := "prepended-value"]) == map[
      "OVERRIDE" := Str("some-value"),
      "DEFAULT" := Str("some-value"),
      "PREPEND" := Str("some-value:$PREPEND"),
      "APPEND" := Str("$APPEND:some-value"),
      "BOTH" := Str("prepended-value:$BOTH:appended-value")]
  {
    TestNames();
    TestEnvironment();
    TestValues();
    OperationsExample("OVERRIDE", "DEFAULT", "PREPEND", "APPEND", "BOTH",
                      "some-value", "prepended-value", "appended-value", ":");
  }

  lemma TestPlainKeys()
    ensures forall k ::
      k in map["SOME_ENV_VAR" := "some-value", "SOME_OTHER_ENV_VAR" := "some-other-value"] ==> !IsOperationKey(k)
  {
    forall k | k in map["SOME_ENV_VAR" := "some-value", "SOME_OTHER_ENV_VAR" := "some-other-value"]
      ensures !IsOperationKey(k)
    {
      TestPlainKey(k);
    }
  }

  lemma TestPlainKey(k: string)
    requires k == "SOME_ENV_VAR" || k == "SOME_OTHER_ENV_VAR"
    ensures !IsOperationKey(k)
  {
    assert '.' !in k;
    NoDotNoOperation(k);
  }

  /** The test with a plain string map: copied through unchanged. */
  lemma PlainExample()
    ensures NewFormattedMapFromEnvironment(map[
      "SOME_ENV_VAR" := "some-value",
      "SOME_OTHER_ENV_VAR" := "some-other-value"]) == map[
      "SOME_ENV_VAR" := Str("some-value"),
      "SOME_OTHER_ENV_VAR" := Str("some-other-value")]
  {
    var env := map["SOME_ENV_VAR" := "some-value", "SOME_OTHER_ENV_VAR" := "some-other-value"];
    TestPlainKeys();
    PlainCopied(env);
  }
}
