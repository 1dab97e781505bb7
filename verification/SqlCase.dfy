/**
 Keywords and names are read in any case: token lists that differ only in the case of their
 words are read as the same expression.
 */
module SqlCase {
  import opened Wrappers
  import opened SqlLex
  import opened Lowering
  import opened SqlParse

  ghost predicate Alike(a: Token, b: Token) {
    if a.Word? then b.Word? && Lower(a.text) == Lower(b.text) else a == b
  }

  ghost predicate AllAlike(x: seq<Token>, y: seq<Token>) {
    |x| == |y| && forall i :: 0 <= i < |x| ==> Alike(x[i], y[i])
  }

  lemma ClosedAlike(x: seq<Token>, y: seq<Token>)
    requires Closed(x) && AllAlike(x, y)
    ensures Closed(y)
  {
    hide Lower;
    forall i | 0 <= i < |y| ensures y[i] == End <==> x[i] == End {
      assert Alike(x[i], y[i]);
    }
  }

  lemma OpAlike(level: nat, x: seq<Token>, y: seq<Token>, pos: nat)
    requires Closed(x) && Closed(y) && AllAlike(x, y) && pos < |x|
    ensures OpAt(level, x, pos) == OpAt(level, y, pos)
  {
    hide Lower;
    assert Alike(x[pos], y[pos]);
    if pos + 1 < |x| {
      assert Alike(x[pos + 1], y[pos + 1]);
    }
  }

  lemma {:induction false} LevelAlike(level: nat, x: seq<Token>, y: seq<Token>, pos: nat)
    requires 1 <= level <= 6 && Closed(x) && Closed(y) && AllAlike(x, y) && pos < |x|
    ensures ParseLevel(level, x, pos) == ParseLevel(level, y, pos)
    decreases |x| - pos, 2, 10 - level
  {
    hide Lower;
    hide Closed;
    hide AllAlike;
    SameLength(x, y);
    if level == 6 {
      UnaryAlike(x, y, pos);
    } else {
      LevelAlike(level + 1, x, y, pos);
      var l := ParseLevel(level + 1, x, pos);
      if l.Some? {
        TailAlike(level, l.value.0, x, y, l.value.1);
      }
    }
  }

  lemma SameLength(x: seq<Token>, y: seq<Token>)
    requires AllAlike(x, y)
    ensures |x| == |y|
  {
  }

  lemma {:induction false} TailAlike(level: nat, left: Expr, x: seq<Token>, y: seq<Token>, pos: nat)
    requires 1 <= level <= 5 && Closed(x) && Closed(y) && AllAlike(x, y) && pos < |x|
    ensures ParseTail(level, left, x, pos) == ParseTail(level, left, y, pos)
    decreases |x| - pos, 1, 0
  {
    hide OpAt;
    hide Closed;
    hide AllAlike;
    SameLength(x, y);
    OpAlike(level, x, y, pos);
    var (op, n) := OpAt(level, x, pos);
    if n > 0 {
      LevelAlike(level + 1, x, y, pos + n);
      var r := ParseLevel(level + 1, x, pos + n);
      if r.Some? {
        TailAlike(level, Binary(op, left, r.value.0), x, y, r.value.1);
      }
    }
  }

  lemma {:induction false} UnaryAlike(x: seq<Token>, y: seq<Token>, pos: nat)
    requires Closed(x) && Closed(y) && AllAlike(x, y) && pos < |x|
    ensures ParseUnary(x, pos) == ParseUnary(y, pos)
    decreases |x| - pos, 1, 1
  {
    hide Lower;
    hide ParsePrimary;
    assert Alike(x[pos], y[pos]);
    if x[pos] == Op("-") || x[pos] == Op("+") || Keyword(x[pos], "not") {
      UnaryAlike(x, y, pos + 1);
    } else {
      PrimaryAlike(x, y, pos);
    }
  }

  lemma {:induction false} PrimaryAlike(x: seq<Token>, y: seq<Token>, pos: nat)
    requires Closed(x) && Closed(y) && AllAlike(x, y) && pos < |x|
    ensures ParsePrimary(x, pos) == ParsePrimary(y, pos)
    decreases |x| - pos, 1, 0
  {
    hide Lower;
    hide ParseLevel;
    hide ParseCast;
    hide ParseArgs;
    assert Alike(x[pos], y[pos]);
    if x[pos] == LParen {
      LevelAlike(1, x, y, pos + 1);
      var e := ParseLevel(1, x, pos + 1);
      assert e.Some? ==> Alike(x[e.value.1], y[e.value.1]);
    } else if x[pos].Word? {
      assert Alike(x[pos + 1], y[pos + 1]);
      CastAlike(x, y, pos + 1);
      if x[pos + 1] == LParen {
        ArgsAlike(x, y, pos + 2);
      }
    }
  }

  lemma {:induction false} CastAlike(x: seq<Token>, y: seq<Token>, pos: nat)
    requires Closed(x) && Closed(y) && AllAlike(x, y) && pos < |x|
    ensures ParseCast(x, pos) == ParseCast(y, pos)
    decreases |x| - pos, 0, 0
  {
    hide Lower;
    hide ParseLevel;
    assert Alike(x[pos], y[pos]);
    if x[pos] == LParen {
      LevelAlike(1, x, y, pos + 1);
      var e := ParseLevel(1, x, pos + 1);
      if e.Some? {
        assert Alike(x[e.value.1], y[e.value.1]);
        var q := if Keyword(x[e.value.1], "as") then e.value.1 + 1 else e.value.1;
        assert Alike(x[q], y[q]);
        if x[q].Word? {
          assert Alike(x[q + 1], y[q + 1]);
        }
      }
    }
  }

  lemma {:induction false} ArgsAlike(x: seq<Token>, y: seq<Token>, pos: nat)
    requires Closed(x) && Closed(y) && AllAlike(x, y) && pos < |x|
    ensures ParseArgs(x, pos) == ParseArgs(y, pos)
    decreases |x| - pos, 3, 1
  {
    hide Lower;
    hide ParseLevel;
    assert Alike(x[pos], y[pos]);
    if x[pos] != RParen {
      ArgListAlike(x, y, pos);
    }
  }

  lemma {:induction false} ArgListAlike(x: seq<Token>, y: seq<Token>, pos: nat)
    requires Closed(x) && Closed(y) && AllAlike(x, y) && pos < |x|
    ensures ParseArgList(x, pos) == ParseArgList(y, pos)
    decreases |x| - pos, 3, 0
  {
    hide Lower;
    hide ParseLevel;
    LevelAlike(1, x, y, pos);
    var e := ParseLevel(1, x, pos);
    if e.Some? {
      assert Alike(x[e.value.1], y[e.value.1]);
      if x[e.value.1] == Comma {
        ArgListAlike(x, y, e.value.1 + 1);
      }
    }
  }
}
