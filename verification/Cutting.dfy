/** Texts with a separator behind each, and such bytes cut into texts again. */
module Cutting {
  import opened Bytes

  function Cut(sep: byte, t: seq<byte>): (ps: seq<seq<byte>>)
    ensures |ps| > 0
  {
    if t == [] then [[]]
    else
      var r := Cut(sep, t[1..]);
      if t[0] == sep then [[]] + r else [[t[0]] + r[0]] + r[1..]
  }

  function CutAll(sep: byte, ts: seq<seq<byte>>): (ps: seq<seq<byte>>)
    ensures |ps| >= |ts|
  {
    if ts == [] then [] else Cut(sep, ts[0]) + CutAll(sep, ts[1..])
  }

  /** Texts with the separator behind each. */
  function Lines(sep: byte, ts: seq<seq<byte>>): seq<byte> {
    if ts == [] then [] else ts[0] + [sep] + Lines(sep, ts[1..])
  }

  ghost predicate AreFree(sep: byte, ts: seq<seq<byte>>) {
    forall k | 0 <= k < |ts| :: sep !in ts[k]
  }

  lemma {:induction false} LinesConcat(sep: byte, a: seq<seq<byte>>, b: seq<seq<byte>>)
    ensures Lines(sep, a + b) == Lines(sep, a) + Lines(sep, b)
  {
    if a == [] {
      assert a + b == b;
    } else {
      assert (a + b)[0] == a[0] && (a + b)[1..] == a[1..] + b;
      LinesConcat(sep, a[1..], b);
    }
  }

  lemma {:induction false} CutLines(sep: byte, t: seq<byte>)
    ensures Lines(sep, Cut(sep, t)) == t + [sep] && AreFree(sep, Cut(sep, t))
    ensures sep !in t ==> Cut(sep, t) == [t]
  {
    if t == [] {
      assert Lines(sep, [[]]) == [] + [sep] + Lines(sep, []);
    } else {
      var r := Cut(sep, t[1..]);
      CutLines(sep, t[1..]);
      assert t == [t[0]] + t[1..];
      if t[0] == sep {
        assert ([[]] + r)[1..] == r;
      } else {
        var c := [[t[0]] + r[0]] + r[1..];
        assert c[1..] == r[1..];
        assert Lines(sep, c) == [t[0]] + Lines(sep, r);
        assert sep !in c[0] && forall k | 0 < k < |c| :: c[k] == r[k];
      }
    }
  }

  lemma {:induction false} CutAllLines(sep: byte, ts: seq<seq<byte>>)
    ensures Lines(sep, CutAll(sep, ts)) == Lines(sep, ts) && AreFree(sep, CutAll(sep, ts))
    ensures AreFree(sep, ts) ==> CutAll(sep, ts) == ts
  {
    if ts != [] {
      CutLines(sep, ts[0]);
      CutAllLines(sep, ts[1..]);
      LinesConcat(sep, Cut(sep, ts[0]), CutAll(sep, ts[1..]));
      if AreFree(sep, ts) {
        assert AreFree(sep, ts[1..]);
      }
    }
  }

  lemma {:induction false} LinesAreCut(sep: byte, a: seq<seq<byte>>, b: seq<seq<byte>>)
    requires Lines(sep, a) == Lines(sep, b) && AreFree(sep, a) && AreFree(sep, b)
    ensures a == b
  {
    if a != [] && b != [] {
      FirstLine(sep, a[0], Lines(sep, a[1..]), b[0], Lines(sep, b[1..]));
      LinesAreCut(sep, a[1..], b[1..]);
      assert a == [a[0]] + a[1..] && b == [b[0]] + b[1..];
    }
  }

  lemma FirstLine(sep: byte, t: seq<byte>, x: seq<byte>, u: seq<byte>, y: seq<byte>)
    requires t + [sep] + x == u + [sep] + y && sep !in t && sep !in u
    ensures t == u && x == y
  {
    var a, b := t + [sep] + x, u + [sep] + y;
    SepAt(sep, t, x);
    SepAt(sep, u, y);
    assert |t| == |u|;
    assert a[..|t|] == t && b[..|u|] == u && a[|t| + 1..] == x && b[|u| + 1..] == y;
  }

  lemma SepAt(sep: byte, t: seq<byte>, x: seq<byte>)
    requires sep !in t
    ensures var a := t + [sep] + x; a[|t|] == sep && forall i | 0 <= i < |t| :: a[i] != sep
  {
    assert forall i | 0 <= i < |t| :: (t + [sep] + x)[i] == t[i] && t[i] in t;
  }

  /** One more piece than texts: one text was cut in two. */
  lemma {:induction false} OneCut(sep: byte, ts: seq<seq<byte>>) returns (j: nat, x: seq<byte>, y: seq<byte>)
    requires |CutAll(sep, ts)| == |ts| + 1
    ensures j < |ts| && ts[j] == x + [sep] + y && sep !in x && sep !in y
    ensures CutAll(sep, ts) == ts[..j] + [x, y] + ts[j + 1..]
    ensures forall k | 0 <= k < |ts| && k != j :: sep !in ts[k]
  {
    hide Cut, Lines;
    var first, rest := Cut(sep, ts[0]), CutAll(sep, ts[1..]);
    CutLines(sep, ts[0]);
    CutAllLines(sep, ts[1..]);
    if |first| == 1 {
      OneText(sep, ts[0]);
      j, x, y := OneCut(sep, ts[1..]);
      j := j + 1;
      Regrouped(ts, j, [x, y]);
      assert forall k | 0 < k < |ts| :: ts[k] == ts[1..][k - 1];
    } else {
      assert |first| == 2 && |rest| == |ts| - 1;
      j, x, y := 0, first[0], first[1];
      TwoTexts(sep, ts[0], x, y);
      NoneCut(sep, ts[1..]);
      assert first == [x, y];
      assert forall k | 0 < k < |ts| :: ts[k] == ts[1..][k - 1];
    }
  }

  /** A text is cut as often as it holds the separator. */
  lemma {:induction false} CutCounts(sep: byte, t: seq<byte>)
    ensures |Cut(sep, t)| == 1 + multiset(t)[sep]
  {
    if t != [] {
      CutCounts(sep, t[1..]);
      assert t == [t[0]] + t[1..];
    }
  }

  lemma LinesSnoc(sep: byte, ts: seq<seq<byte>>, t: seq<byte>)
    ensures Lines(sep, ts + [t]) == Lines(sep, ts) + t + [sep]
  {
    LinesConcat(sep, ts, [t]);
    assert Lines(sep, [t]) == t + [sep] + Lines(sep, []);
  }

  lemma OneText(sep: byte, t: seq<byte>)
    requires |Cut(sep, t)| == 1
    ensures Cut(sep, t) == [t] && sep !in t
  {
    CutLines(sep, t);
    assert Cut(sep, t) == [Cut(sep, t)[0]] && Lines(sep, Cut(sep, t)) == Cut(sep, t)[0] + [sep] + Lines(sep, []);
    assert Cut(sep, t)[0] == (t + [sep])[..|t|] == t;
  }

  lemma TwoTexts(sep: byte, t: seq<byte>, x: seq<byte>, y: seq<byte>)
    requires Cut(sep, t) == [x, y]
    ensures t == x + [sep] + y && sep !in x && sep !in y
  {
    CutLines(sep, t);
    assert [x, y][1..] == [y] && [y][1..] == [];
    assert Lines(sep, [y]) == y + [sep] + Lines(sep, []);
    assert Lines(sep, [x, y]) == x + [sep] + y + [sep];
    assert t == (t + [sep])[..|t|];
    assert Cut(sep, t)[0] == x && Cut(sep, t)[1] == y;
  }

  lemma {:induction false} NoneCut(sep: byte, ts: seq<seq<byte>>)
    requires |CutAll(sep, ts)| == |ts|
    ensures CutAll(sep, ts) == ts && AreFree(sep, ts)
  {
    if ts != [] {
      OneText(sep, ts[0]);
      NoneCut(sep, ts[1..]);
      assert ts == [ts[0]] + ts[1..];
    }
  }

  lemma {:induction false} CutAllAt(sep: byte, ts: seq<seq<byte>>, j: nat)
    requires j < |ts| && forall k | 0 <= k < |ts| && k != j :: sep !in ts[k]
    ensures CutAll(sep, ts) == ts[..j] + Cut(sep, ts[j]) + ts[j + 1..]
  {
    hide Cut;
    var rest := ts[1..];
    assert forall k | 0 <= k < |rest| :: rest[k] == ts[k + 1];
    if j == 0 {
      CutAllLines(sep, rest);
    } else {
      CutLines(sep, ts[0]);
      CutAllAt(sep, rest, j - 1);
      Regrouped(ts, j, Cut(sep, ts[j]));
    }
  }

  lemma Regrouped(ts: seq<seq<byte>>, j: nat, x: seq<seq<byte>>)
    requires 0 < j < |ts|
    ensures [ts[0]] + (ts[1..][..j - 1] + x + ts[1..][j..]) == ts[..j] + x + ts[j + 1..]
  {
    assert ts[..j] == [ts[0]] + ts[1..][..j - 1] && ts[1..][j..] == ts[j + 1..];
  }
}
