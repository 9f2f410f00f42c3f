/** The edit distance behind "did you mean" and the choice of the suggestion
    (levenshtein and suggestSimilarBuiltin in internal/repl/command.go). */
module EditDistance {
  import opened Text
  import opened Wrappers

  function Min(a: nat, b: nat): nat {
    if a <= b then a else b
  }

  /** The recurrence of the dynamic program, on last characters. */
  function Dist<T(==)>(s: seq<T>, t: seq<T>): nat
    decreases |s| + |t|
  {
    if s == [] then |t|
    else if t == [] then |s|
    else
      var s', t' := s[..|s| - 1], t[..|t| - 1];
      Min(Dist(s', t) + 1, Min(Dist(s, t') + 1, Dist(s', t') + Cost(s[|s| - 1], t[|t| - 1])))
  }

  function Cost<T(==)>(a: T, b: T): nat {
    if a == b then 0 else 1
  }

  method Levenshtein<T(==)>(s: seq<T>, t: seq<T>) returns (dist: nat)
    ensures dist == Dist(s, t)
  {
    Borders(s, t);
    hide Dist, Min;
    var n, m := |s|, |t|;
    assert s[..n] == s && t[..m] == t && s[..0] == [] && t[..0] == [];
    if n == 0 {
      return m;
    }
    if m == 0 {
      return n;
    }
    var d := new nat[n + 1, m + 1];
    var i, j := 0, 0;
    while i <= n
      invariant 0 <= i <= n + 1
      invariant forall x | 0 <= x < i :: d[x, 0] == x
    {
      d[i, 0] := i;
      i := i + 1;
    }
    while j <= m
      invariant 0 <= j <= m + 1
      invariant forall x | 0 <= x <= n :: d[x, 0] == x
      invariant forall y | 0 <= y < j :: d[0, y] == y
    {
      d[0, j] := j;
      j := j + 1;
    }
    i := 1;
    while i <= n
      invariant 1 <= i <= n + 1
      invariant forall x | 0 <= x <= n :: d[x, 0] == x
      invariant forall x, y | 0 <= x < i && 0 <= y <= m :: d[x, y] == Dist(s[..x], t[..y])
    {
      j := 1;
      while j <= m
        invariant 1 <= j <= m + 1
        invariant forall x | 0 <= x <= n :: d[x, 0] == x
        invariant forall x, y | 0 <= x < i && 0 <= y <= m :: d[x, y] == Dist(s[..x], t[..y])
        invariant forall y | 0 <= y < j :: d[i, y] == Dist(s[..i], t[..y])
      {
        var cost := 1;
        if s[i - 1] == t[j - 1] {
          cost := 0;
        }
        PrefixStep(s, t, i, j);
        d[i, j] := Min(d[i - 1, j] + 1, Min(d[i, j - 1] + 1, d[i - 1, j - 1] + cost));
        j := j + 1;
      }
      i := i + 1;
    }
    return d[n, m];
  }

  lemma Borders<T>(s: seq<T>, t: seq<T>)
    ensures forall x | 0 <= x <= |s| :: Dist(s[..x], []) == x
    ensures forall y | 0 <= y <= |t| :: Dist([], t[..y]) == y
    ensures Dist(s, []) == |s| && Dist([], t) == |t|
  {
  }

  lemma PrefixStep<T>(s: seq<T>, t: seq<T>, i: nat, j: nat)
    requires 1 <= i <= |s| && 1 <= j <= |t|
    ensures Dist(s[..i], t[..j])
         == Min(Dist(s[..i - 1], t[..j]) + 1,
                Min(Dist(s[..i], t[..j - 1]) + 1, Dist(s[..i - 1], t[..j - 1]) + Cost(s[i - 1], t[j - 1])))
  {
    hide *;
    DistStep(s[..i], t[..j]);
    assert s[..i][..i - 1] == s[..i - 1] && t[..j][..j - 1] == t[..j - 1];
  }

  lemma DistStep<T>(s: seq<T>, t: seq<T>)
    requires s != [] && t != []
    ensures var s', t' := s[..|s| - 1], t[..|t| - 1];
            Dist(s, t) == Min(Dist(s', t) + 1, Min(Dist(s, t') + 1, Dist(s', t') + Cost(s[|s| - 1], t[|t| - 1])))
  {
    hide Min, Cost;
  }

  // ---- the distance is a metric ----

  lemma {:induction false} DistSymmetric<T>(s: seq<T>, t: seq<T>)
    ensures Dist(s, t) == Dist(t, s)
    decreases |s| + |t|
  {
    if s != [] && t != [] {
      var s', t' := s[..|s| - 1], t[..|t| - 1];
      DistSymmetric(s', t);
      DistSymmetric(s, t');
      DistSymmetric(s', t');
    }
  }

  /** A difference of lengths has to be paid for. */
  lemma {:induction false} DistAtLeastLength<T>(s: seq<T>, t: seq<T>)
    ensures |s| <= Dist(s, t) + |t| && |t| <= Dist(s, t) + |s|
    decreases |s| + |t|
  {
    if s != [] && t != [] {
      var s', t' := s[..|s| - 1], t[..|t| - 1];
      DistAtLeastLength(s', t);
      DistAtLeastLength(s, t');
      DistAtLeastLength(s', t');
    }
  }

  lemma DistAtMostLength<T>(s: seq<T>, t: seq<T>)
    ensures Dist(s, t) <= |s| + |t|
    decreases |s| + |t|
  {
    if s != [] && t != [] {
      DistAtMostLength(s[..|s| - 1], t);
    }
  }

  lemma {:induction false} DistZeroIffEqual<T>(s: seq<T>, t: seq<T>)
    ensures Dist(s, t) == 0 <==> s == t
    decreases |s| + |t|
  {
    if s != [] && t != [] {
      var s', t', a, b := s[..|s| - 1], t[..|t| - 1], s[|s| - 1], t[|t| - 1];
      DistZeroIffEqual(s', t');
      assert s == s' + [a] && t == t' + [b];
    }
  }

  lemma {:induction false} TriangleInequality<T>(s: seq<T>, t: seq<T>, u: seq<T>)
    ensures Dist(s, u) <= Dist(s, t) + Dist(t, u)
    decreases |s| + |t| + |u|
  {
    if s == [] || t == [] || u == [] {
      DistAtLeastLength(t, u);
      DistAtLeastLength(s, t);
      DistAtMostLength(s, u);
    } else {
      DistStep(s, t);
      DistStep(t, u);
      DistStep(s, u);
      hide Dist;
      var s', t', u' := s[..|s| - 1], t[..|t| - 1], u[..|u| - 1];
      if Dist(s, t) == Dist(s', t) + 1 {
        TriangleInequality(s', t, u);
      } else if Dist(t, u) == Dist(t, u') + 1 {
        TriangleInequality(s, t, u');
      } else if Dist(s, t) == Dist(s, t') + 1 {
        if Dist(t, u) == Dist(t', u) + 1 {
          TriangleInequality(s, t', u);
        } else {
          TriangleInequality(s, t', u');
        }
      } else if Dist(t, u) == Dist(t', u) + 1 {
        TriangleInequality(s', t', u);
      } else {
        TriangleInequality(s', t', u');
      }
    }
  }

  // ---- the distance is the length of the shortest edit script ----

  /** One edit anywhere in the string. */
  datatype Edit<T> = Insert(at: nat, what: T) | Delete(at: nat) | Substitute(at: nat, what: T)

  function Apply<T>(e: Edit<T>, s: seq<T>): Option<seq<T>> {
    match e
    case Insert(i, c) => if i <= |s| then Some(s[..i] + [c] + s[i..]) else None
    case Delete(i) => if i < |s| then Some(s[..i] + s[i + 1..]) else None
    case Substitute(i, c) => if i < |s| then Some(s[i := c]) else None
  }

  /** The string a script makes of `s`, the edits applied one after the other. */
  function Run<T>(script: seq<Edit<T>>, s: seq<T>): Option<seq<T>>
    decreases |script|
  {
    if script == [] then Some(s)
    else
      var next := Apply(script[0], s);
      if next.None? then None else Run(script[1..], next.value)
  }

  lemma {:induction false} RunAppend<T>(a: seq<Edit<T>>, b: seq<Edit<T>>, s: seq<T>)
    requires Run(a, s).Some?
    ensures Run(a + b, s) == Run(b, Run(a, s).value)
    decreases |a|
  {
    if a == [] {
      assert a + b == b;
    } else {
      assert (a + b)[1..] == a[1..] + b;
      RunAppend(a[1..], b, Apply(a[0], s).value);
    }
  }

  lemma DistWithLast<T>(s: seq<T>, t: seq<T>, c: T)
    ensures Dist(s + [c], t + [c]) <= Dist(s, t)
  {
    DistStep(s + [c], t + [c]);
    hide Dist;
    assert (s + [c])[..|s|] == s && (t + [c])[..|t|] == t;
  }

  lemma {:induction false} DistWithSuffix<T>(s: seq<T>, t: seq<T>, tail: seq<T>)
    ensures Dist(s + tail, t + tail) <= Dist(s, t)
    decreases |tail|
  {
    hide Dist;
    if tail == [] {
      assert s + tail == s && t + tail == t;
    } else {
      var front, c := tail[..|tail| - 1], tail[|tail| - 1];
      DistWithSuffix(s, t, front);
      DistWithLast(s + front, t + front, c);
      assert s + tail == (s + front) + [c] && t + tail == (t + front) + [c];
    }
  }

  lemma DistRefl<T>(s: seq<T>)
    ensures Dist(s, s) == 0
  {
    DistZeroIffEqual(s, s);
  }

  lemma DistOfLastEdit<T>(head: seq<T>, a: T, b: T)
    ensures Dist(head, head + [b]) <= 1 && Dist(head + [a], head) <= 1 && Dist(head + [a], head + [b]) <= 1
  {
    DistRefl(head);
    assert (head + [b])[..|head|] == head && (head + [a])[..|head|] == head;
  }

  /** One edit moves a string by at most one. */
  lemma DistOfOneEdit<T>(e: Edit<T>, s: seq<T>)
    requires Apply(e, s).Some?
    ensures Dist(s, Apply(e, s).value) <= 1
  {
    hide Dist;
    var i := e.at;
    var head := s[..i];
    match e
    case Insert(_, c) =>
      DistOfLastEdit(head, c, c);
      DistWithSuffix(head, head + [c], s[i..]);
      assert s == head + s[i..];
    case Delete(_) =>
      DistOfLastEdit(head, s[i], s[i]);
      DistWithSuffix(head + [s[i]], head, s[i + 1..]);
      assert s == head + [s[i]] + s[i + 1..];
    case Substitute(_, c) =>
      DistOfLastEdit(head, s[i], c);
      DistWithSuffix(head + [s[i]], head + [c], s[i + 1..]);
      assert s == head + [s[i]] + s[i + 1..];
      assert s[i := c] == head + [c] + s[i + 1..];
  }

  /** No script is shorter than the distance. */
  lemma {:induction false} NoShorterScript<T>(script: seq<Edit<T>>, s: seq<T>, t: seq<T>)
    requires Run(script, s) == Some(t)
    ensures Dist(s, t) <= |script|
    decreases |script|
  {
    if script == [] {
      DistRefl(s);
    } else {
      var next := Apply(script[0], s).value;
      DistOfOneEdit(script[0], s);
      NoShorterScript(script[1..], next, t);
      TriangleInequality(s, next, t);
    }
  }

  lemma {:induction false} RunKeepsSuffix<T>(script: seq<Edit<T>>, s: seq<T>, c: T)
    requires Run(script, s).Some?
    ensures Run(script, s + [c]) == Some(Run(script, s).value + [c])
    decreases |script|
  {
    if script != [] {
      var next := Apply(script[0], s).value;
      assert Apply(script[0], s + [c]) == Some(next + [c]) by {
        assert Apply(script[0], s + [c]).value == next + [c];
      }
      RunKeepsSuffix(script[1..], next, c);
    }
  }

  lemma Extend<T>(script: seq<Edit<T>>, s: seq<T>, mid: seq<T>, e: Edit<T>) returns (longer: seq<Edit<T>>)
    requires Run(script, s) == Some(mid) && Apply(e, mid).Some?
    ensures |longer| == |script| + 1 && Run(longer, s) == Apply(e, mid)
  {
    longer := script + [e];
    RunAppend(script, [e], s);
    assert [e][1..] == [];
  }

  lemma InsertLast<T>(script: seq<Edit<T>>, s: seq<T>, t: seq<T>, b: T) returns (longer: seq<Edit<T>>)
    requires Run(script, s) == Some(t)
    ensures Run(longer, s) == Some(t + [b]) && |longer| == |script| + 1
  {
    assert Apply(Insert(|t|, b), t).value == t + [b];
    longer := Extend(script, s, t, Insert(|t|, b));
  }

  lemma DeleteLast<T>(script: seq<Edit<T>>, s: seq<T>, a: T, t: seq<T>) returns (longer: seq<Edit<T>>)
    requires Run(script, s) == Some(t)
    ensures Run(longer, s + [a]) == Some(t) && |longer| == |script| + 1
  {
    assert Apply(Delete(|s|), s + [a]).value == s;
    longer := [Delete(|s|)] + script;
    assert longer[1..] == script;
  }

  lemma ChangeLast<T>(script: seq<Edit<T>>, s: seq<T>, a: T, t: seq<T>, b: T) returns (longer: seq<Edit<T>>)
    requires Run(script, s) == Some(t)
    ensures Run(longer, s + [a]) == Some(t + [b]) && |longer| == |script| + Cost(a, b)
  {
    RunKeepsSuffix(script, s, a);
    if a == b {
      longer := script;
    } else {
      assert Apply(Substitute(|t|, b), t + [a]).value == t + [b];
      longer := Extend(script, s + [a], t + [a], Substitute(|t|, b));
    }
  }

  lemma {:induction false} InsertAll<T>(t: seq<T>) returns (script: seq<Edit<T>>)
    ensures Run(script, []) == Some(t) && |script| == |t|
  {
    if t == [] {
      script := [];
    } else {
      hide Run;
      var t', b := t[..|t| - 1], t[|t| - 1];
      script := InsertAll(t');
      script := InsertLast(script, [], t', b);
      assert t == t' + [b];
    }
  }

  lemma {:induction false} DeleteAll<T>(s: seq<T>) returns (script: seq<Edit<T>>)
    ensures Run(script, s) == Some([]) && |script| == |s|
  {
    if s == [] {
      script := [];
    } else {
      hide Run;
      var s', a := s[..|s| - 1], s[|s| - 1];
      script := DeleteAll(s');
      script := DeleteLast(script, s', a, []);
      assert s == s' + [a];
    }
  }

  /** Some script is as short as the distance. */
  lemma {:induction false} ShortestScript<T>(s: seq<T>, t: seq<T>) returns (script: seq<Edit<T>>)
    ensures Run(script, s) == Some(t) && |script| == Dist(s, t)
    decreases |s| + |t|
  {
    if s == [] {
      script := InsertAll(t);
    } else if t == [] {
      script := DeleteAll(s);
    } else {
      DistStep(s, t);
      hide Dist, Run;
      var s', t', a, b := s[..|s| - 1], t[..|t| - 1], s[|s| - 1], t[|t| - 1];
      assert s == s' + [a] && t == t' + [b];
      if Dist(s, t) == Dist(s, t') + 1 {
        script := ShortestScript(s, t');
        script := InsertLast(script, s, t', b);
      } else if Dist(s, t) == Dist(s', t) + 1 {
        script := ShortestScript(s', t);
        script := DeleteLast(script, s', a, t);
      } else {
        script := ShortestScript(s', t');
        script := ChangeLast(script, s', a, t', b);
      }
    }
  }

  // ---- the suggestion ----

  /** Position k holds the first of the names closest to the input. */
  ghost predicate FirstClosest(names: seq<string>, input: string, lower: string -> seq<Byte>, k: nat)
    requires k < |names|
  {
    && (forall x | 0 <= x < |names| ::
          Dist(lower(input), lower(names[k])) <= Dist(lower(input), lower(names[x])))
    && (forall x | 0 <= x < k ::
          Dist(lower(input), lower(names[k])) < Dist(lower(input), lower(names[x])))
  }

  /** `lower` gives the bytes of what strings.ToLower makes of a string; the distance is one of bytes. */
  method SuggestSimilarBuiltin(input: string, names: seq<string>, lower: string -> seq<Byte>)
    returns (best: string)
    ensures (exists k | 0 <= k < |names| ::
               && FirstClosest(names, input, lower, k)
               && Dist(lower(input), lower(names[k])) <= 2 && best == names[k])
         || ((forall x | 0 <= x < |names| ::
                Dist(lower(input), lower(names[x])) > 2) && best == "")
  {
    hide Dist;
    if |names| == 0 {
      return "";
    }
    best := "";
    var minDist := 3;
    ghost var k := -1;
    for i := 0 to |names|
      invariant minDist <= 3 && (k == -1 ==> minDist == 3 && best == "")
      invariant -1 <= k < i
      invariant forall x | 0 <= x < i :: minDist <= Dist(lower(input), lower(names[x]))
      invariant k >= 0 ==> minDist == Dist(lower(input), lower(names[k])) < 3 && best == names[k]
      invariant k >= 0 ==> forall x | 0 <= x < k :: minDist < Dist(lower(input), lower(names[x]))
    {
      var dist := Levenshtein(lower(input), lower(names[i]));
      if dist < minDist {
        minDist := dist;
        best := names[i];
        k := i;
      }
    }
    assert k >= 0 ==> FirstClosest(names, input, lower, k);
  }
}
