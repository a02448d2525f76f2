/** The class-name combiner `cn`: a variadic list of strings, numbers, nested
    arrays and key-to-value objects flattened into one space-separated string. */
module ClassNames {

  /** A JavaScript value as it may stand as a property value of an object argument. */
  datatype JsValue = JsUndefined | JsNull | JsBool(b: bool) | JsNumber(n: int) | JsString(s: string) | JsObject

  /** One argument of `cn`: the declared string | number | object | array, plus the
      `false`, `true`, `null` and `undefined` that callers pass at run time
      (`cn('a', cond && 'b')`). An object is the list of its own enumerable
      properties in `for...in` order. */
  datatype Arg =
    | Str(s: string)
    | Num(n: int)
    | Arr(items: seq<Arg>)
    | Obj(entries: seq<(string, JsValue)>)
    | Bool(b: bool)
    | Null
    | Undefined

  predicate Truthy(a: Arg) {
    match a
    case Str(s) => s != ""
    case Num(n) => n != 0
    case Arr(_) => true
    case Obj(_) => true
    case Bool(b) => b
    case Null => false
    case Undefined => false
  }

  predicate JsTruthy(v: JsValue) {
    match v
    case JsUndefined => false
    case JsNull => false
    case JsBool(b) => b
    case JsNumber(n) => n != 0
    case JsString(s) => s != ""
    case JsObject => true
  }

  // ---------------------------------------------------------------------------
  // Number.prototype.toString for integers

  predicate IsDigit(c: char) { '0' <= c <= '9' }

  function DigitChar(d: nat): (c: char)
    requires d < 10
    ensures IsDigit(c) && (c as int) - ('0' as int) == d
  {
    ('0' as int + d) as char
  }

  /** The decimal numeral of n: digits only, and no leading zero unless n is 0. */
  function NatToString(n: nat): (s: string)
    ensures |s| > 0
    ensures forall i :: 0 <= i < |s| ==> IsDigit(s[i])
    ensures s[0] == '0' ==> n == 0
  {
    if n < 10 then [DigitChar(n)] else NatToString(n / 10) + [DigitChar(n % 10)]
  }

  /** The value a string of decimal digits denotes. */
  function DecimalValue(s: string): nat
    requires forall i :: 0 <= i < |s| ==> IsDigit(s[i])
  {
    if |s| == 0 then 0
    else
      assert IsDigit(s[|s| - 1]);
      DecimalValue(s[..|s| - 1]) * 10 + ((s[|s| - 1] as int) - ('0' as int))
  }

  /** The numeral NatToString produces denotes the number it was made from. */
  lemma {:induction false} NatToStringValue(n: nat)
    ensures DecimalValue(NatToString(n)) == n
  {
    if n >= 10 {
      NatToStringValue(n / 10);
      var s := NatToString(n);
      assert s[..|s| - 1] == NatToString(n / 10);
    }
  }

  /** The string form of an integer number, `n.toString()`. */
  function IntToString(n: int): (s: string)
    ensures |s| > 0 && ' ' !in s
  {
    if n < 0 then "-" + NatToString(-n) else NatToString(n)
  }

  // ---------------------------------------------------------------------------
  // The specification: the pieces pushed onto `classes`, and their join

  /** `Array.prototype.join(' ')`. */
  function Join(pieces: seq<string>): string {
    if |pieces| == 0 then ""
    else if |pieces| == 1 then pieces[0]
    else Join(pieces[..|pieces| - 1]) + " " + pieces[|pieces| - 1]
  }

  /** The keys of the entries whose value is truthy, in entry order. */
  function TruthyKeys(entries: seq<(string, JsValue)>): (keys: seq<string>)
    ensures |keys| <= |entries|
    ensures forall k :: k in keys <==> exists i :: 0 <= i < |entries| && entries[i].0 == k && JsTruthy(entries[i].1)
  {
    if |entries| == 0 then []
    else
      var last := entries[|entries| - 1];
      var front := TruthyKeys(entries[..|entries| - 1]);
      assert forall i :: 0 <= i < |entries| - 1 ==> entries[..|entries| - 1][i] == entries[i];
      front + (if JsTruthy(last.1) then [last.0] else [])
  }

  /** What one argument pushes onto `classes`. */
  function Contribution(a: Arg): seq<string>
    decreases a
  {
    if !Truthy(a) then []
    else match a
      case Str(s) => [s]
      case Num(n) => [IntToString(n)]
      case Arr(items) =>
        var inner := Join(Pieces(items));
        if inner == "" then [] else [inner]
      case Obj(entries) => TruthyKeys(entries)
      // `true`: its type is "boolean", which none of the branches accepts
      case _ => []
  }

  /** Everything the arguments push onto `classes`, in order. */
  function Pieces(args: seq<Arg>): seq<string>
    decreases args
  {
    if |args| == 0 then []
    else Pieces(args[..|args| - 1]) + Contribution(args[|args| - 1])
  }

  // ---------------------------------------------------------------------------
  // The implementation: the loop of the source

  method Cn(args: seq<Arg>) returns (r: string)
    ensures r == Join(Pieces(args))
    decreases args
  {
    var classes: seq<string> := [];
    for i := 0 to |args|
      invariant classes == Pieces(args[..i])
    {
      assert args[..i + 1][..i] == args[..i];
      var arg := args[i];
      if !Truthy(arg) {
        continue;
      }
      match arg {
        case Str(s) =>
          classes := classes + [s];
        case Num(n) =>
          classes := classes + [IntToString(n)];
        case Arr(items) =>
          var inner := Cn(items);
          if inner != "" {
            classes := classes + [inner];
          }
        case Obj(entries) =>
          ghost var before := classes;
          for j := 0 to |entries|
            invariant classes == before + TruthyKeys(entries[..j])
          {
            assert entries[..j + 1][..j] == entries[..j];
            if JsTruthy(entries[j].1) {
              classes := classes + [entries[j].0];
            }
          }
          assert entries[..|entries|] == entries;
        case _ =>
      }
    }
    assert args[..|args|] == args;
    r := Join(classes);
  }

  // ---------------------------------------------------------------------------
  // Properties

  /** Pieces of a concatenation are the concatenated pieces: argument order is kept. */
  lemma {:induction false} PiecesAppend(a: seq<Arg>, b: seq<Arg>)
    ensures Pieces(a + b) == Pieces(a) + Pieces(b)
    decreases |b|
  {
    if |b| == 0 {
      assert a + b == a;
    } else {
      var b' := b[..|b| - 1];
      assert (a + b)[..|a + b| - 1] == a + b';
      assert (a + b)[|a + b| - 1] == b[|b| - 1];
      PiecesAppend(a, b');
    }
  }

  /** A falsy argument anywhere in the list changes nothing. */
  lemma FalsyIgnored(pre: seq<Arg>, a: Arg, post: seq<Arg>)
    requires !Truthy(a)
    ensures Pieces(pre + [a] + post) == Pieces(pre + post)
  {
    PiecesAppend(pre + [a], post);
    PiecesAppend(pre, [a]);
    PiecesAppend(pre, post);
    assert Pieces([a]) == Pieces([]) + Contribution(a);
  }

  /** A string or number argument, wherever it stands, pushes exactly its
      string form, or nothing when it is falsy; alone, it is the result. */
  lemma ScalarArgument(pre: seq<Arg>, s: string, n: int)
    ensures Pieces(pre + [Str(s)]) == Pieces(pre) + (if s == "" then [] else [s])
    ensures Pieces(pre + [Num(n)]) == Pieces(pre) + (if n == 0 then [] else [IntToString(n)])
    ensures Join(Pieces([Str(s)])) == s
    ensures Join(Pieces([Num(n)])) == if n == 0 then "" else IntToString(n)
  {
    PiecesAppend(pre, [Str(s)]);
    PiecesAppend(pre, [Num(n)]);
    assert [Str(s)][..0] == [];
    assert [Num(n)][..0] == [];
  }

  /** An array argument contributes the combined string of its own elements,
      and nothing when that string is empty. */
  lemma ArrayArgument(pre: seq<Arg>, items: seq<Arg>)
    ensures var inner := Join(Pieces(items));
      Pieces(pre + [Arr(items)]) == Pieces(pre) + (if inner == "" then [] else [inner])
  {
    PiecesAppend(pre, [Arr(items)]);
    assert [Arr(items)][..0] == [];
  }

  /** An object argument contributes the keys of its truthy values, in order. */
  lemma ObjectArgument(pre: seq<Arg>, entries: seq<(string, JsValue)>)
    ensures Pieces(pre + [Obj(entries)]) == Pieces(pre) + TruthyKeys(entries)
  {
    PiecesAppend(pre, [Obj(entries)]);
    assert [Obj(entries)][..0] == [];
  }

  /** `cn()` is the empty string, and more generally the result is empty exactly
      when nothing was pushed, provided no object has an empty key. */
  lemma EmptyResult(args: seq<Arg>)
    requires NonEmptyKeys(args)
    ensures args == [] ==> Join(Pieces(args)) == ""
    ensures Join(Pieces(args)) == "" <==> Pieces(args) == []
  {
    PiecesNonEmpty(args);
    JoinEmpty(Pieces(args));
  }

  /** No object argument, however deeply nested, has the empty string as a key. */
  predicate NonEmptyKeys(args: seq<Arg>)
    decreases args
  {
    forall i :: 0 <= i < |args| ==> NonEmptyKeysIn(args[i])
  }

  predicate NonEmptyKeysIn(a: Arg)
    decreases a
  {
    match a
    case Arr(items) => NonEmptyKeys(items)
    case Obj(entries) => forall j :: 0 <= j < |entries| ==> entries[j].0 != ""
    case _ => true
  }

  predicate AllNonEmpty(pieces: seq<string>) {
    forall i :: 0 <= i < |pieces| ==> pieces[i] != ""
  }

  lemma {:induction false} JoinEmpty(pieces: seq<string>)
    requires AllNonEmpty(pieces)
    ensures Join(pieces) == "" <==> pieces == []
  {
    if |pieces| > 1 {
      var n := |pieces|;
      assert |Join(pieces)| >= |pieces[n - 1]| > 0;
    }
  }

  /** Nothing pushed onto `classes` is empty, unless an object has an empty key. */
  lemma {:induction false} PiecesNonEmpty(args: seq<Arg>)
    requires NonEmptyKeys(args)
    ensures AllNonEmpty(Pieces(args))
    decreases args
  {
    if |args| > 0 {
      var front := args[..|args| - 1];
      assert NonEmptyKeys(front) by {
        forall i | 0 <= i < |front| ensures NonEmptyKeysIn(front[i]) {
          assert front[i] == args[i];
        }
      }
      PiecesNonEmpty(front);
      var a := args[|args| - 1];
      assert NonEmptyKeysIn(a);
      if Truthy(a) && a.Obj? {
        var keys := TruthyKeys(a.entries);
        forall i | 0 <= i < |keys| ensures keys[i] != "" {
          assert keys[i] in keys;
        }
      }
    }
  }

  // ---------------------------------------------------------------------------
  // Spacing

  /** No leading, trailing or doubled space. */
  predicate Tidy(s: string) {
    && (|s| > 0 ==> s[0] != ' ' && s[|s| - 1] != ' ')
    && forall i :: 0 <= i < |s| - 1 ==> !(s[i] == ' ' && s[i + 1] == ' ')
  }

  /** Every string argument and every key is tidy and every key is non-empty. */
  predicate TidyArgs(args: seq<Arg>)
    decreases args
  {
    forall i :: 0 <= i < |args| ==> TidyArg(args[i])
  }

  predicate TidyArg(a: Arg)
    decreases a
  {
    match a
    case Str(s) => Tidy(s)
    case Arr(items) => TidyArgs(items)
    case Obj(entries) => forall j :: 0 <= j < |entries| ==> entries[j].0 != "" && Tidy(entries[j].0)
    case _ => true
  }

  predicate AllTidy(pieces: seq<string>) {
    forall i :: 0 <= i < |pieces| ==> pieces[i] != "" && Tidy(pieces[i])
  }

  lemma TidyConcat(a: string, b: string)
    requires a != "" && b != "" && Tidy(a) && Tidy(b)
    ensures Tidy(a + " " + b)
  {
    var s := a + " " + b;
    forall i | 0 <= i < |s| - 1 ensures !(s[i] == ' ' && s[i + 1] == ' ') {
      if i < |a| - 1 {
        assert s[i] == a[i] && s[i + 1] == a[i + 1];
      } else if i == |a| - 1 {
        assert s[i] == a[|a| - 1];
      } else if i == |a| {
        assert s[i + 1] == b[0];
      } else {
        assert s[i] == b[i - |a| - 1] && s[i + 1] == b[i - |a|];
      }
    }
  }

  lemma {:induction false} JoinTidy(pieces: seq<string>)
    requires AllTidy(pieces)
    ensures Tidy(Join(pieces))
    ensures pieces != [] ==> Join(pieces) != ""
  {
    if |pieces| > 1 {
      var front := pieces[..|pieces| - 1];
      assert AllTidy(front) by {
        forall i | 0 <= i < |front| ensures front[i] != "" && Tidy(front[i]) {
          assert front[i] == pieces[i];
        }
      }
      JoinTidy(front);
      TidyConcat(Join(front), pieces[|pieces| - 1]);
    }
  }

  lemma {:induction false} PiecesTidy(args: seq<Arg>)
    requires TidyArgs(args)
    ensures AllTidy(Pieces(args))
    decreases args
  {
    if |args| > 0 {
      var front := args[..|args| - 1];
      assert TidyArgs(front) by {
        forall i | 0 <= i < |front| ensures TidyArg(front[i]) {
          assert front[i] == args[i];
        }
      }
      PiecesTidy(front);
      var a := args[|args| - 1];
      assert TidyArg(a);
      if Truthy(a) {
        match a {
          case Str(s) =>
          case Num(n) =>
            var t := IntToString(n);
            assert ' ' !in t;
            assert t[0] in t && t[|t| - 1] in t;
            forall i | 0 <= i < |t| - 1 ensures t[i] != ' ' {
              assert t[i] in t;
            }
          case Arr(items) =>
            PiecesTidy(items);
            JoinTidy(Pieces(items));
          case Obj(entries) =>
            var keys := TruthyKeys(entries);
            forall i | 0 <= i < |keys| ensures keys[i] != "" && Tidy(keys[i]) {
              assert keys[i] in keys;
            }
          case _ =>
        }
      }
    }
  }

  /** With tidy strings and non-empty tidy keys, the result has no leading,
      trailing or doubled space. */
  lemma ResultTidy(args: seq<Arg>)
    requires TidyArgs(args)
    ensures Tidy(Join(Pieces(args)))
  {
    PiecesTidy(args);
    JoinTidy(Pieces(args));
  }

  /** Join of a list in which one run of pieces is replaced by its own join. */
  lemma {:induction false} JoinNested(a: seq<string>, b: seq<string>, c: seq<string>)
    requires b != []
    ensures Join(a + [Join(b)] + c) == Join(a + b + c)
    decreases |c|
  {
    if |c| == 0 {
      assert a + [Join(b)] + c == a + [Join(b)];
      assert a + b + c == a + b;
      JoinPrefix(a, b);
    } else {
      var c' := c[..|c| - 1];
      JoinNested(a, b, c');
      assert (a + [Join(b)] + c)[..|a + [Join(b)] + c| - 1] == a + [Join(b)] + c';
      assert (a + b + c)[..|a + b + c| - 1] == a + b + c';
      assert (a + [Join(b)] + c)[|a + [Join(b)] + c| - 1] == c[|c| - 1];
      assert (a + b + c)[|a + b + c| - 1] == c[|c| - 1];
    }
  }

  lemma {:induction false} JoinPrefix(a: seq<string>, b: seq<string>)
    requires b != []
    ensures Join(a + [Join(b)]) == Join(a + b)
    decreases |b|
  {
    if |a| == 0 {
      assert a + [Join(b)] == [Join(b)];
      assert a + b == b;
    } else if |b| == 1 {
      assert b == [b[0]];
    } else {
      var b' := b[..|b| - 1];
      JoinPrefix(a, b');
      assert (a + b)[..|a + b| - 1] == a + b';
      assert (a + b)[|a + b| - 1] == b[|b| - 1];
      assert (a + [Join(b)])[..|a| + 1 - 1] == a;
      assert (a + [Join(b')])[..|a| + 1 - 1] == a;
      assert (a + [Join(b')])[|a|] == Join(b');
      if |a + b'| == 1 {
        assert false;
      }
    }
  }

  /** A nested array is flattened: `cn(p, [q, r], s) == cn(p, q, r, s)`, as long
      as no object key is empty. */
  lemma Flatten(pre: seq<Arg>, items: seq<Arg>, post: seq<Arg>)
    requires NonEmptyKeys(items)
    ensures Join(Pieces(pre + [Arr(items)] + post)) == Join(Pieces(pre + items + post))
  {
    PiecesAppend(pre + [Arr(items)], post);
    PiecesAppend(pre, [Arr(items)]);
    PiecesAppend(pre + items, post);
    PiecesAppend(pre, items);
    assert [Arr(items)][..0] == [];
    var inner := Pieces(items);
    EmptyResult(items);
    if inner == [] {
      assert Pieces(pre) + [] + Pieces(post) == Pieces(pre) + inner + Pieces(post);
    } else {
      JoinNested(Pieces(pre), inner, Pieces(post));
    }
  }
}
