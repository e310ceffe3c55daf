/** The placeholder template renderer of the moderation cog: an operator
    writes a message such as "{user} was banned by {moderator} in {guild}",
    and each `{expr}` is resolved against a small map of named objects.

    Python's dynamic `str(obj)` and `getattr(obj, name)` are replaced by a
    closed `Value` type with `ToStr`, and by a finite map from
    (object, attribute name) to the attribute's value. */
module Templates {
  import opened Strings
  import opened Numerals

  /** A value that can be bound in the context or read as an attribute. */
  datatype Value =
    | NoneValue                       // Python None, e.g. a reason that was not given
    | Text(s: string)                 // a str, e.g. a reason that was given
    | Int(n: int)                     // an int, e.g. the number of days
    | Obj(id: nat, display: string)   // a member, user, guild or duration, shown by its own str()

  /** Python's `str` of a value. */
  function ToStr(v: Value): string
  {
    match v
    case NoneValue => "None"
    case Text(s) => s
    case Int(n) => IntText(n)
    case Obj(_, display) => display
  }

  /** The named objects a template may refer to (`objects` in the source). */
  type Context = map<string, Value>

  /** The attributes each value exposes: `getattr(owner, name)` is
      `attrs[(owner, name)]` when that key is present, and missing otherwise. */
  type Attributes = map<(Value, string), Value>

  /** The placeholder text for an expression, the fallback literal. */
  function Raw(expr: string): string
  {
    "{" + expr + "}"
  }

  /** Attribute names with a leading underscore are internals. */
  predicate Private(name: string)
  {
    |name| > 0 && name[0] == '_'
  }

  /** Resolves one placeholder expression (`Mod.transform_parameter`).
      Unless the expression is itself a key, the result is its fallback text
      or the text of an attribute whose name has no leading underscore. */
  function TransformParameter(expr: string, objects: Context, attrs: Attributes): (r: string)
    ensures expr !in objects && r != Raw(expr) ==>
      exists key :: key in attrs && !Private(key.1) && r == ToStr(attrs[key])
  {
    if expr in objects then ToStr(objects[expr])
    else
      var parts := Split(expr, '.');
      if |parts| != 2 then Raw(expr)
      else if parts[0] in objects && !Private(parts[1]) then
        var owner := objects[parts[0]];
        if (owner, parts[1]) in attrs then ToStr(attrs[(owner, parts[1])]) else Raw(expr)
      else Raw(expr)
  }

  /** A name that is itself a key resolves to that value's text, before any
      splitting on dots is tried. */
  lemma ParameterKeyFirst(expr: string, objects: Context, attrs: Attributes)
    requires expr in objects
    ensures TransformParameter(expr, objects, attrs) == ToStr(objects[expr])
  {
  }

  /** An expression that is not a key and has no dot, or two or more dots,
      falls back to its own placeholder text. */
  lemma ParameterNotOneDot(expr: string, objects: Context, attrs: Attributes)
    requires expr !in objects && Count(expr, '.') != 1
    ensures TransformParameter(expr, objects, attrs) == Raw(expr)
  {
    SplitCount(expr, '.');
  }

  /** An expression `first.second` with exactly one dot, not itself a key,
      resolves to the attribute `second` of the object named `first` when
      that object is bound, `second` has no leading underscore and the
      attribute exists; in every other case it falls back to its own
      placeholder text. */
  lemma ParameterDotted(first: string, second: string, objects: Context, attrs: Attributes)
    requires '.' !in first && '.' !in second
    requires first + "." + second !in objects
    ensures var r := TransformParameter(first + "." + second, objects, attrs);
      if first in objects && !Private(second) && (objects[first], second) in attrs
      then r == ToStr(attrs[(objects[first], second)])
      else r == Raw(first + "." + second)
  {
    SplitAtOnly(first, second, '.');
  }

  /** Two attribute tables that differ only in underscore attributes. */
  ghost predicate AgreeOnPublic(a1: Attributes, a2: Attributes)
  {
    forall key: (Value, string) :: !Private(key.1) ==>
      (key in a1 <==> key in a2) && (key in a1 ==> a1[key] == a2[key])
  }

  /** Internals are never exposed: what a placeholder resolves to does not
      depend on any attribute whose name starts with an underscore. */
  lemma ParameterHidesPrivate(expr: string, objects: Context, a1: Attributes, a2: Attributes)
    requires AgreeOnPublic(a1, a2)
    ensures TransformParameter(expr, objects, a1) == TransformParameter(expr, objects, a2)
  {
    var parts := Split(expr, '.');
    if expr !in objects && |parts| == 2 && parts[0] in objects && !Private(parts[1]) {
      var key := (objects[parts[0]], parts[1]);
      assert key in a1 <==> key in a2;
    }
  }

  /** Index of the first '}' in `s`, or `|s|` when there is none. */
  function CloseIndex(s: string): (j: nat)
    ensures j <= |s|
    ensures j < |s| ==> s[j] == '}'
    ensures forall k :: 0 <= k < j ==> s[k] != '}'
  {
    if s == [] then 0 else if s[0] == '}' then 0 else 1 + CloseIndex(s[1..])
  }

  /** `re.findall(r"{([^}]+)\}", s)`: scanning left to right, a match starts
      at a '{' and captures the one or more characters up to the next '}';
      after a match the scan resumes behind its '}', otherwise one character on.
      Each match takes at least three characters of `s`. */
  function Find(s: string): (r: seq<string>)
    ensures 3 * |r| <= |s|
  {
    if s == [] then []
    else if s[0] == '{' then
      var j := CloseIndex(s);
      if 1 < j < |s| then [s[1..j]] + Find(s[j + 1..]) else Find(s[1..])
    else Find(s[1..])
  }

  /** A '{', then one or more characters other than '}', then a '}', spanning s[i..j+1]. */
  ghost predicate PlaceholderAt(s: string, i: nat, j: nat)
  {
    i + 1 < j < |s| && s[i] == '{' && s[j] == '}' && forall k :: i < k < j ==> s[k] != '}'
  }

  ghost predicate HasPlaceholder(s: string)
  {
    exists i: nat, j: nat :: PlaceholderAt(s, i, j)
  }

  lemma PlaceholderInSuffix(s: string, i: nat, j: nat)
    requires 1 <= |s| && PlaceholderAt(s[1..], i, j)
    ensures PlaceholderAt(s, i + 1, j + 1)
  {
    forall k | i + 1 < k < j + 1 ensures s[k] != '}' {
      assert s[k] == s[1..][k - 1];
    }
  }

  /** `e` is a possible capture in `s`: non-empty, free of '}', and its
      placeholder text occurs in `s`. */
  ghost predicate Captured(s: string, e: string)
  {
    |e| > 0 && '}' !in e && exists i: nat :: OccursAt(s, Raw(e), i)
  }

  lemma CapturedInSuffix(s: string, n: nat, e: string)
    requires n <= |s| && Captured(s[n..], e)
    ensures Captured(s, e)
  {
    var i: nat :| OccursAt(s[n..], Raw(e), i);
    OccursInSuffix(s, Raw(e), n, i);
  }

  /** Every captured expression is non-empty, free of '}', and its
      placeholder text occurs in the scanned string. */
  lemma {:induction false} FindSound(s: string)
    ensures forall k :: 0 <= k < |Find(s)| ==> Captured(s, Find(s)[k])
  {
    if s != [] {
      var j := CloseIndex(s);
      if s[0] == '{' && 1 < j < |s| {
        var rest := s[j + 1..];
        FindSound(rest);
        var head := s[1..j];
        assert Find(s) == [head] + Find(rest);
        assert Captured(s, head) by {
          assert s[0..j + 1] == Raw(head);
          assert OccursAt(s, Raw(head), 0);
        }
        forall k | 1 <= k < |Find(s)| ensures Captured(s, Find(s)[k]) {
          assert Find(s)[k] == Find(rest)[k - 1];
          CapturedInSuffix(s, j + 1, Find(rest)[k - 1]);
        }
      } else {
        FindSound(s[1..]);
        assert Find(s) == Find(s[1..]);
        forall k | 0 <= k < |Find(s)| ensures Captured(s, Find(s)[k]) {
          CapturedInSuffix(s, 1, Find(s)[k]);
        }
      }
    }
  }

  /** The scan finds nothing exactly when the string holds no placeholder:
      no '{' followed by one or more characters other than '}' and a '}'. */
  lemma {:induction false} FindEmptyIff(s: string)
    ensures Find(s) == [] <==> !HasPlaceholder(s)
  {
    if s != [] {
      var j := CloseIndex(s);
      if s[0] == '{' && 1 < j < |s| {
        assert PlaceholderAt(s, 0, j);
      } else {
        FindEmptyIff(s[1..]);
        if HasPlaceholder(s) {
          var i: nat, j': nat :| PlaceholderAt(s, i, j');
          assert i != 0;
          assert PlaceholderAt(s[1..], i - 1, j' - 1);
        }
        if HasPlaceholder(s[1..]) {
          var i: nat, j': nat :| PlaceholderAt(s[1..], i, j');
          PlaceholderInSuffix(s, i, j');
        }
      }
    }
  }

  /** Replaces every found expression in turn, each step working on the
      message the previous steps left (the loop of `Mod.transform_message`). */
  function ApplyAll(message: string, exprs: seq<string>, objects: Context, attrs: Attributes): string
    decreases |exprs|
  {
    if exprs == [] then message
    else
      var param := TransformParameter(exprs[0], objects, attrs);
      ApplyAll(ReplaceAll(message, Raw(exprs[0]), param), exprs[1..], objects, attrs)
  }

  /** The rendered text of a message (`Mod.transform_message`). */
  function Render(message: string, objects: Context, attrs: Attributes): string
  {
    ApplyAll(message, Find(message), objects, attrs)
  }

  /** `Mod.transform_message`: find the placeholders, then for each in turn
      replace all of its occurrences in the current message. */
  method TransformMessage(message: string, objects: Context, attrs: Attributes) returns (r: string)
    ensures r == Render(message, objects, attrs)
  {
    var results := Find(message);
    r := message;
    for i := 0 to |results|
      invariant ApplyAll(r, results[i..], objects, attrs) == Render(message, objects, attrs)
    {
      var param := TransformParameter(results[i], objects, attrs);
      assert results[i..][1..] == results[i + 1..];
      r := ReplaceAll(r, Raw(results[i]), param);
    }
    assert results[|results|..] == [];
  }

  /** Steps whose expressions all fall back to their own text change nothing. */
  lemma {:induction false} ApplyAllFallback(message: string, exprs: seq<string>, objects: Context, attrs: Attributes)
    requires forall k :: 0 <= k < |exprs| ==> TransformParameter(exprs[k], objects, attrs) == Raw(exprs[k])
    ensures ApplyAll(message, exprs, objects, attrs) == message
    decreases |exprs|
  {
    if exprs != [] {
      ReplaceBySelf(message, Raw(exprs[0]));
      ApplyAllFallback(message, exprs[1..], objects, attrs);
    }
  }

  /** When every found placeholder falls back to its own text, rendering
      returns the message unchanged, and rendering again changes nothing. */
  lemma RenderFallback(message: string, objects: Context, attrs: Attributes)
    requires forall e :: e in Find(message) ==> TransformParameter(e, objects, attrs) == Raw(e)
    ensures Render(message, objects, attrs) == message
    ensures Render(Render(message, objects, attrs), objects, attrs) == Render(message, objects, attrs)
  {
    ApplyAllFallback(message, Find(message), objects, attrs);
  }

  /** A message without any placeholder renders to itself, whatever the context. */
  lemma RenderPlain(message: string, objects: Context, attrs: Attributes)
    requires !HasPlaceholder(message)
    ensures Render(message, objects, attrs) == message
  {
    FindEmptyIff(message);
  }

  lemma {:induction false} ApplyAllHidesPrivate(message: string, exprs: seq<string>, objects: Context, a1: Attributes, a2: Attributes)
    requires AgreeOnPublic(a1, a2)
    ensures ApplyAll(message, exprs, objects, a1) == ApplyAll(message, exprs, objects, a2)
    decreases |exprs|
  {
    if exprs != [] {
      ParameterHidesPrivate(exprs[0], objects, a1, a2);
      var next := ReplaceAll(message, Raw(exprs[0]), TransformParameter(exprs[0], objects, a1));
      ApplyAllHidesPrivate(next, exprs[1..], objects, a1, a2);
    }
  }

  /** A rendered message never depends on underscore attributes. */
  lemma RenderHidesPrivate(message: string, objects: Context, a1: Attributes, a2: Attributes)
    requires AgreeOnPublic(a1, a2)
    ensures Render(message, objects, a1) == Render(message, objects, a2)
  {
    ApplyAllHidesPrivate(message, Find(message), objects, a1, a2);
  }

  // A template as a sequence of pieces: literal text and placeholders.

  datatype Piece = Lit(text: string) | Ph(expr: string)

  function PieceText(p: Piece): string
  {
    match p
    case Lit(t) => t
    case Ph(e) => Raw(e)
  }

  /** The template text the pieces spell out. */
  function Flatten(ps: seq<Piece>): string
  {
    if ps == [] then "" else PieceText(ps[0]) + Flatten(ps[1..])
  }

  predicate BraceFree(s: string)
  {
    '{' !in s && '}' !in s
  }

  /** Literal text holds no brace; a placeholder names a non-empty, brace-free expression. */
  predicate WellFormed(p: Piece)
  {
    match p
    case Lit(t) => BraceFree(t)
    case Ph(e) => |e| > 0 && BraceFree(e)
  }

  predicate AllWellFormed(ps: seq<Piece>)
  {
    forall k :: 0 <= k < |ps| ==> WellFormed(ps[k])
  }

  /** The placeholder expressions, in order, repeats included. */
  function Exprs(ps: seq<Piece>): seq<string>
  {
    if ps == [] then []
    else (if ps[0].Ph? then [ps[0].expr] else []) + Exprs(ps[1..])
  }

  /** Reference rendering, piece by piece: literal text stays, and each
      placeholder becomes what its own expression resolves to. */
  function Rendered(ps: seq<Piece>, objects: Context, attrs: Attributes): string
  {
    if ps == [] then ""
    else
      var head := match ps[0]
        case Lit(t) => t
        case Ph(e) => TransformParameter(e, objects, attrs);
      head + Rendered(ps[1..], objects, attrs)
  }

  /** The value an expression resolves to holds no brace, or is its own
      fallback text; either way it cannot create or break a later placeholder. */
  predicate ResolvesCleanly(e: string, objects: Context, attrs: Attributes)
  {
    var v := TransformParameter(e, objects, attrs);
    BraceFree(v) || v == Raw(e)
  }

  lemma FindAfterLit(t: string, rest: string)
    requires '{' !in t
    ensures Find(t + rest) == Find(rest)
    decreases |t|
  {
    if t != [] {
      assert t[0] in t;
      assert (t + rest)[0] == t[0];
      assert (t + rest)[1..] == t[1..] + rest;
      assert Find(t + rest) == Find(t[1..] + rest);
      FindAfterLit(t[1..], rest);
    } else {
      assert t + rest == rest;
    }
  }

  lemma FindAfterPh(e: string, rest: string)
    requires |e| > 0 && BraceFree(e)
    ensures Find(Raw(e) + rest) == [e] + Find(rest)
  {
    var s := Raw(e) + rest;
    var j := CloseIndex(s);
    assert s[|e| + 1] == '}';
    assert forall k :: 0 <= k < |e| + 1 ==> s[k] != '}' by {
      forall k | 0 <= k < |e| + 1 ensures s[k] != '}' {
        if k > 0 { assert s[k] == e[k - 1]; }
      }
    }
    assert j == |e| + 1;
    assert s[1..j] == e;
    assert s[j + 1..] == rest;
  }

  /** Scanning a well-formed template finds exactly its placeholders, in order. */
  lemma {:induction false} FindPieces(ps: seq<Piece>)
    requires AllWellFormed(ps)
    ensures Find(Flatten(ps)) == Exprs(ps)
  {
    if ps != [] {
      FindPieces(ps[1..]);
      match ps[0]
      case Lit(t) => FindAfterLit(t, Flatten(ps[1..]));
      case Ph(e) => FindAfterPh(e, Flatten(ps[1..]));
    }
  }

  /** Resolving one expression `e` to `v` in a template: its placeholders
      become literal `v`, or stay placeholders when `v` is their own text. */
  function ResolvePiece(p: Piece, e: string, v: string): Piece
  {
    if p == Ph(e) then (if v == Raw(e) then p else Lit(v)) else p
  }

  function Resolve(ps: seq<Piece>, e: string, v: string): (r: seq<Piece>)
    ensures |r| == |ps|
    ensures forall k :: 0 <= k < |ps| ==> r[k] == ResolvePiece(ps[k], e, v)
  {
    if ps == [] then [] else [ResolvePiece(ps[0], e, v)] + Resolve(ps[1..], e, v)
  }

  /** A text that differs from `pat` at one aligned position is not an occurrence. */
  lemma DiffersAt(s: string, pat: string, i: nat, k: nat)
    requires i + k < |s| && k < |pat| && s[i + k] != pat[k]
    ensures !OccursAt(s, pat, i)
  {
    if i + |pat| <= |s| {
      assert s[i..i + |pat|][k] == s[i + k];
    }
  }

  /** No occurrence of a placeholder text starts inside a well-formed piece
      and runs past its end. */
  lemma PieceNoStraddle(p: Piece, rest: string, e: string)
    requires WellFormed(p) && |e| > 0 && BraceFree(e)
    ensures NoStraddle(PieceText(p), rest, Raw(e))
  {
    var a := PieceText(p);
    var pat := Raw(e);
    forall i: nat | i < |a| < i + |pat| ensures !OccursAt(a + rest, pat, i) {
      match p
      case Lit(t) =>
        assert t[i] in t;
        DiffersAt(a + rest, pat, i, 0);
      case Ph(x) =>
        if i > 0 {
          assert (a + rest)[i] == a[i];
          if i <= |x| {
            assert x[i - 1] in x;
            assert a[i] == x[i - 1];
          }
          DiffersAt(a + rest, pat, i, 0);
        } else {
          assert e[|a| - 2] in e;
          assert pat[|a| - 1] == e[|a| - 2];
          DiffersAt(a + rest, pat, 0, |a| - 1);
        }
    }
  }

  /** Replacing a placeholder text inside one well-formed piece. */
  lemma PieceReplace(p: Piece, e: string, v: string)
    requires WellFormed(p) && |e| > 0 && BraceFree(e)
    ensures ReplaceAll(PieceText(p), Raw(e), v) == PieceText(ResolvePiece(p, e, v))
  {
    var a := PieceText(p);
    var pat := Raw(e);
    if p == Ph(e) {
      assert a[..|pat|] == pat;
      assert a[|pat|..] == [];
    } else {
      forall i: nat | i + |pat| <= |a| ensures !OccursAt(a, pat, i) {
        match p
        case Lit(t) =>
          assert t[i] in t;
          DiffersAt(a, pat, i, 0);
        case Ph(x) =>
          if i > 0 {
            assert x[i - 1] in x;
            assert a[i] == x[i - 1];
            DiffersAt(a, pat, i, 0);
          } else if |pat| < |a| {
            assert x[|pat| - 2] in x;
            assert a[|pat| - 1] == x[|pat| - 2];
            DiffersAt(a, pat, 0, |pat| - 1);
          } else {
            assert |x| == |e| && x != e;
            assert !(forall m :: 0 <= m < |x| ==> x[m] == e[m]);
            var m :| 0 <= m < |x| && x[m] != e[m];
            assert a[m + 1] == x[m] && pat[m + 1] == e[m];
            DiffersAt(a, pat, 0, m + 1);
          }
      }
      ReplaceAbsent(a, pat, v);
    }
  }

  /** Replacing a placeholder text in a well-formed template resolves it
      piece by piece. */
  lemma {:induction false} ReplacePieces(ps: seq<Piece>, e: string, v: string)
    requires AllWellFormed(ps) && |e| > 0 && BraceFree(e)
    ensures ReplaceAll(Flatten(ps), Raw(e), v) == Flatten(Resolve(ps, e, v))
  {
    if ps != [] {
      PieceNoStraddle(ps[0], Flatten(ps[1..]), e);
      ReplaceConcat(PieceText(ps[0]), Flatten(ps[1..]), Raw(e), v);
      PieceReplace(ps[0], e, v);
      ReplacePieces(ps[1..], e, v);
      assert Resolve(ps, e, v)[1..] == Resolve(ps[1..], e, v);
    }
  }

  /** The template after the expressions in `done` have been replaced. */
  function Settle(ps: seq<Piece>, done: set<string>, objects: Context, attrs: Attributes): (r: seq<Piece>)
    ensures |r| == |ps|
    ensures forall k :: 0 <= k < |ps| ==> r[k] == SettlePiece(ps[k], done, objects, attrs)
  {
    if ps == [] then [] else [SettlePiece(ps[0], done, objects, attrs)] + Settle(ps[1..], done, objects, attrs)
  }

  function SettlePiece(p: Piece, done: set<string>, objects: Context, attrs: Attributes): Piece
  {
    if p.Ph? && p.expr in done then ResolvePiece(p, p.expr, TransformParameter(p.expr, objects, attrs)) else p
  }

  lemma SettleWellFormed(ps: seq<Piece>, done: set<string>, objects: Context, attrs: Attributes)
    requires AllWellFormed(ps)
    requires forall k :: 0 <= k < |ps| && ps[k].Ph? ==> ResolvesCleanly(ps[k].expr, objects, attrs)
    ensures AllWellFormed(Settle(ps, done, objects, attrs))
  {
  }

  lemma SettleStep(ps: seq<Piece>, done: set<string>, e: string, objects: Context, attrs: Attributes)
    ensures Resolve(Settle(ps, done, objects, attrs), e, TransformParameter(e, objects, attrs))
         == Settle(ps, done + {e}, objects, attrs)
  {
    var v := TransformParameter(e, objects, attrs);
    var lhs := Resolve(Settle(ps, done, objects, attrs), e, v);
    var rhs := Settle(ps, done + {e}, objects, attrs);
    forall k | 0 <= k < |ps| ensures lhs[k] == rhs[k] {
    }
  }

  /** Running the replacement loop over some placeholder expressions settles exactly those. */
  lemma {:induction false} ApplyAllSettles(ps: seq<Piece>, done: set<string>, exprs: seq<string>, objects: Context, attrs: Attributes)
    requires AllWellFormed(ps)
    requires forall k :: 0 <= k < |ps| && ps[k].Ph? ==> ResolvesCleanly(ps[k].expr, objects, attrs)
    requires forall k :: 0 <= k < |exprs| ==> |exprs[k]| > 0 && BraceFree(exprs[k])
    ensures ApplyAll(Flatten(Settle(ps, done, objects, attrs)), exprs, objects, attrs)
         == Flatten(Settle(ps, done + (set e | e in exprs), objects, attrs))
    decreases |exprs|
  {
    if exprs == [] {
      assert done + (set e | e in exprs) == done;
    } else {
      var e := exprs[0];
      SettleWellFormed(ps, done, objects, attrs);
      ReplacePieces(Settle(ps, done, objects, attrs), e, TransformParameter(e, objects, attrs));
      SettleStep(ps, done, e, objects, attrs);
      ApplyAllSettles(ps, done + {e}, exprs[1..], objects, attrs);
      assert done + {e} + (set x | x in exprs[1..]) == done + (set x | x in exprs);
    }
  }

  lemma {:induction false} ExprsWellFormed(ps: seq<Piece>)
    requires AllWellFormed(ps)
    ensures forall k :: 0 <= k < |Exprs(ps)| ==> |Exprs(ps)[k]| > 0 && BraceFree(Exprs(ps)[k])
    ensures forall k :: 0 <= k < |ps| && ps[k].Ph? ==> ps[k].expr in Exprs(ps)
  {
    if ps != [] {
      ExprsWellFormed(ps[1..]);
      forall k | 0 <= k < |ps| && ps[k].Ph? ensures ps[k].expr in Exprs(ps) {
        if k > 0 { assert ps[1..][k - 1] == ps[k]; }
      }
    }
  }

  /** Once every placeholder is settled, the template reads as its reference rendering. */
  lemma {:induction false} SettledIsRendered(ps: seq<Piece>, done: set<string>, objects: Context, attrs: Attributes)
    requires forall k :: 0 <= k < |ps| && ps[k].Ph? ==> ps[k].expr in done
    ensures Flatten(Settle(ps, done, objects, attrs)) == Rendered(ps, objects, attrs)
  {
    if ps != [] {
      assert Settle(ps, done, objects, attrs)[1..] == Settle(ps[1..], done, objects, attrs);
      SettledIsRendered(ps[1..], done, objects, attrs);
    }
  }

  lemma SettleNothing(ps: seq<Piece>, objects: Context, attrs: Attributes)
    ensures Settle(ps, {}, objects, attrs) == ps
  {
  }

  /** A template of brace-free text and brace-free placeholders renders piece
      by piece, provided each placeholder resolves to brace-free text or to its
      own fallback text. In particular identical placeholders all receive the
      same value, and text substituted early is not rewritten later. */
  lemma RenderPieces(ps: seq<Piece>, objects: Context, attrs: Attributes)
    requires AllWellFormed(ps)
    requires forall k :: 0 <= k < |ps| && ps[k].Ph? ==> ResolvesCleanly(ps[k].expr, objects, attrs)
    ensures Render(Flatten(ps), objects, attrs) == Rendered(ps, objects, attrs)
  {
    FindPieces(ps);
    ExprsWellFormed(ps);
    SettleNothing(ps, objects, attrs);
    ApplyAllSettles(ps, {}, Exprs(ps), objects, attrs);
    SettledIsRendered(ps, {} + (set e | e in Exprs(ps)), objects, attrs);
  }

  // Worked examples.

  /** Both occurrences of one placeholder receive the same value: with
      `user` bound to the text "Alice", "{user} and {user}" renders as
      "Alice and Alice". */
  lemma RenderRepeatedName(name: string, sep: string, t: string, attrs: Attributes)
    requires |name| > 0 && BraceFree(name) && BraceFree(sep) && BraceFree(t)
    ensures Render(Raw(name) + sep + Raw(name), map[name := Text(t)], attrs) == t + sep + t
  {
    var objects := map[name := Text(t)];
    var ps := [Ph(name), Lit(sep), Ph(name)];
    assert ps[1..] == [Lit(sep), Ph(name)];
    assert Rendered(ps, objects, attrs) == t + sep + t by {
      assert TransformParameter(name, objects, attrs) == t;
      assert ps[1..][1..] == [Ph(name)] && [Ph(name)][1..] == [];
      assert Rendered([Ph(name)], objects, attrs) == t + Rendered([], objects, attrs);
      assert Rendered(ps[1..], objects, attrs) == sep + Rendered([Ph(name)], objects, attrs);
    }
    assert Flatten(ps) == Raw(name) + sep + Raw(name) by {
      FlattenPair(Lit(sep), Ph(name));
      assert Flatten(ps) == Raw(name) + Flatten(ps[1..]);
    }
    RenderPieces(ps, objects, attrs);
  }

  lemma FlattenPair(p: Piece, q: Piece)
    ensures Flatten([p, q]) == PieceText(p) + PieceText(q)
  {
    assert [p, q][1..] == [q];
    assert [q][1..] == [];
    assert Flatten([q]) == PieceText(q) + Flatten([]);
    assert Flatten([p, q]) == PieceText(p) + Flatten([q]);
  }

  /** Text followed by one dotted placeholder, `prefix{first.second}`. */
  function DottedTemplate(prefix: string, first: string, second: string): string
  {
    prefix + Raw(first + "." + second)
  }

  /** Renders `prefix{first.second}` when the dotted expression falls back. */
  lemma RenderDottedFallback(prefix: string, first: string, second: string, objects: Context, attrs: Attributes)
    requires BraceFree(prefix) && BraceFree(first) && BraceFree(second)
    requires TransformParameter(first + "." + second, objects, attrs) == Raw(first + "." + second)
    ensures Render(DottedTemplate(prefix, first, second), objects, attrs) == DottedTemplate(prefix, first, second)
  {
    var e := first + "." + second;
    var ps := [Lit(prefix), Ph(e)];
    assert ps[1..] == [Ph(e)];
    assert '{' !in "." && '}' !in ".";
    assert BraceFree(e);
    assert Flatten(ps) == DottedTemplate(prefix, first, second) by {
      assert Flatten(ps[1..]) == Raw(e) + Flatten([]);
    }
    assert Rendered(ps, objects, attrs) == prefix + Raw(e) by {
      assert Rendered(ps[1..], objects, attrs) == Raw(e) + Rendered([], objects, attrs);
    }
    RenderPieces(ps, objects, attrs);
  }

  /** An attribute the object does not have leaves the placeholder as
      written, e.g. "Hi {user.nickname}" for a user without a nickname. */
  lemma RenderMissingAttribute(prefix: string, first: string, second: string, objects: Context, attrs: Attributes)
    requires BraceFree(prefix) && BraceFree(first) && BraceFree(second)
    requires '.' !in first && '.' !in second && first + "." + second !in objects
    requires first in objects && (objects[first], second) !in attrs
    ensures Render(DottedTemplate(prefix, first, second), objects, attrs) == DottedTemplate(prefix, first, second)
  {
    ParameterDotted(first, second, objects, attrs);
    RenderDottedFallback(prefix, first, second, objects, attrs);
  }

  /** An underscore attribute is never read, even when the object has it,
      e.g. "{user._internal}" stays as written. */
  lemma RenderPrivateAttribute(prefix: string, first: string, second: string, objects: Context, attrs: Attributes)
    requires BraceFree(prefix) && BraceFree(first) && BraceFree(second)
    requires '.' !in first && '.' !in second && first + "." + second !in objects
    requires Private(second)
    ensures Render(DottedTemplate(prefix, first, second), objects, attrs) == DottedTemplate(prefix, first, second)
  {
    ParameterDotted(first, second, objects, attrs);
    RenderDottedFallback(prefix, first, second, objects, attrs);
  }

  lemma FindTwo(a: string, b: string)
    requires |a| > 0 && BraceFree(a) && |b| > 0 && BraceFree(b)
    ensures Find(Raw(a) + Raw(b)) == [a, b]
  {
    var ps := [Ph(a), Ph(b)];
    FlattenPair(Ph(a), Ph(b));
    FindPieces(ps);
    assert ps[1..] == [Ph(b)] && ps[1..][1..] == [];
    assert Exprs([Ph(b)]) == [b] + Exprs([]);
    assert Exprs(ps) == [a] + Exprs([Ph(b)]);
  }

  /** Replacing `{x}` by `v` in `{x}{y}`. */
  lemma ReplaceFirstOfTwo(x: string, y: string, v: string)
    requires |x| > 0 && BraceFree(x) && |y| > 0 && BraceFree(y) && x != y
    requires v != Raw(x)
    ensures ReplaceAll(Raw(x) + Raw(y), Raw(x), v) == v + Raw(y)
  {
    var ps := [Ph(x), Ph(y)];
    FlattenPair(Ph(x), Ph(y));
    ReplacePieces(ps, x, v);
    assert Resolve(ps, x, v) == [Lit(v), Ph(y)];
    FlattenPair(Lit(v), Ph(y));
  }

  /** Replacing `{x}` by `v` in `w{x}`, where `w` holds no brace. */
  lemma ReplaceAfterText(x: string, w: string, v: string)
    requires |x| > 0 && BraceFree(x) && BraceFree(w)
    requires v != Raw(x)
    ensures ReplaceAll(w + Raw(x), Raw(x), v) == w + v
  {
    var ps := [Lit(w), Ph(x)];
    FlattenPair(Lit(w), Ph(x));
    ReplacePieces(ps, x, v);
    assert Resolve(ps, x, v) == [Lit(w), Lit(v)];
    FlattenPair(Lit(w), Lit(v));
  }

  /** Replacing `{x}` by `v` in `{x}{x}`. */
  lemma ReplaceBothOfTwo(x: string, v: string)
    requires |x| > 0 && BraceFree(x) && v != Raw(x)
    ensures ReplaceAll(Raw(x) + Raw(x), Raw(x), v) == v + v
  {
    var ps := [Ph(x), Ph(x)];
    FlattenPair(Ph(x), Ph(x));
    ReplacePieces(ps, x, v);
    assert Resolve(ps, x, v) == [Lit(v), Lit(v)];
    FlattenPair(Lit(v), Lit(v));
  }

  /** Replacement is sequential: text substituted for an earlier placeholder
      is rewritten by later ones, so the order of first appearance matters.
      With `a` bound to the text "{b}" and `b` to "x", "{a}{b}" renders as
      "xx" but "{b}{a}" renders as "x{b}". */
  lemma RenderSubstitutedTextIsRescanned(a: string, b: string, t: string, attrs: Attributes)
    requires |a| > 0 && BraceFree(a) && |b| > 0 && BraceFree(b) && a != b && BraceFree(t)
    ensures var objects := map[a := Text(Raw(b)), b := Text(t)];
      Render(Raw(a) + Raw(b), objects, attrs) == t + t
      && Render(Raw(b) + Raw(a), objects, attrs) == t + Raw(b)
  {
    var objects := map[a := Text(Raw(b)), b := Text(t)];
    assert TransformParameter(a, objects, attrs) == Raw(b);
    assert TransformParameter(b, objects, attrs) == t;
    assert Raw(b) != Raw(a) by { assert Raw(b)[1..|Raw(b)| - 1] == b; }
    assert t != Raw(b) by { assert Raw(b)[0] in Raw(b); }

    FindTwo(a, b);
    ReplaceFirstOfTwo(a, b, Raw(b));
    ReplaceBothOfTwo(b, t);
    assert [a, b][1..] == [b];
    assert ApplyAll(Raw(b) + Raw(b), [b], objects, attrs) == t + t;

    FindTwo(b, a);
    ReplaceFirstOfTwo(b, a, t);
    ReplaceAfterText(a, t, Raw(b));
    assert [b, a][1..] == [a];
    assert ApplyAll(t + Raw(a), [a], objects, attrs) == t + Raw(b);
  }
}
