/** Slicing and splitting of strings, used to locate and read back the parts
    of a filled template. */
module Text {

  datatype Option<T> = None | Some(value: T)

  /** In a + (x + r), a comes first, x right after a and r right after x. */
  lemma OneHole(a: string, x: string, r: string)
    ensures |a| + |x| <= |a + (x + r)|
    ensures (a + (x + r))[|a| .. |a| + |x|] == x
    ensures (a + (x + r))[|a| + |x| ..] == r
  {
  }

  /** Slicing the suffix of s that starts at i is slicing s from i on. */
  lemma Shifted(s: string, i: nat, t: string, p: nat, q: nat)
    requires i <= |s| && s[i..] == t && p <= q <= |t|
    ensures s[i + p .. i + q] == t[p..q] && s[i + p ..] == t[p..]
  {
    assert |t| == |s| - i;
    forall k | 0 <= k < q - p ensures s[i + p .. i + q][k] == t[p..q][k] {
      assert s[i + p + k] == s[i..][p + k];
    }
    forall k | 0 <= k < |s| - i - p ensures s[i + p ..][k] == t[p..][k] {
      assert s[i + p + k] == s[i..][p + k];
    }
  }

  /** The holes of a text of the shape a + (x + (b + (y + (c + (z + (d + (w + e))))))),
      each at the offset the fixed parts a, b, c, d and e put it. */
  lemma FourHoles(a: string, x: string, b: string, y: string, c: string, z: string, d: string, w: string, e: string)
    ensures var s := a + (x + (b + (y + (c + (z + (d + (w + e)))))));
      var i := |a|;
      var j := i + |x| + |b|;
      var k := j + |y| + |c|;
      var l := k + |z| + |d|;
      && l + |w| + |e| == |s|
      && s[i .. i + |x|] == x && s[j .. j + |y|] == y
      && s[k .. k + |z|] == z && s[l .. l + |w|] == w
  {
    var t := b + (y + (c + (z + (d + (w + e)))));
    var s := a + (x + t);
    OneHole(a, x, t);
    ThreeHoles(b, y, c, z, d, w, e);
    var i := |a| + |x|;
    Shifted(s, i, t, |b|, |b| + |y|);
    Shifted(s, i, t, |b| + |y| + |c|, |b| + |y| + |c| + |z|);
    Shifted(s, i, t, |b| + |y| + |c| + |z| + |d|, |b| + |y| + |c| + |z| + |d| + |w|);
  }

  /** The holes of a text of the shape a + (x + (b + (y + (c + (z + d))))),
      each at the offset the fixed parts a, b, c and d put it. */
  lemma ThreeHoles(a: string, x: string, b: string, y: string, c: string, z: string, d: string)
    ensures var s := a + (x + (b + (y + (c + (z + d)))));
      var i := |a|;
      var j := i + |x| + |b|;
      var k := j + |y| + |c|;
      && k + |z| + |d| == |s|
      && s[i .. i + |x|] == x && s[j .. j + |y|] == y && s[k .. k + |z|] == z
  {
    var t3 := c + (z + d);
    var t2 := b + (y + t3);
    var s := a + (x + t2);
    OneHole(a, x, t2);
    OneHole(b, y, t3);
    Shifted(s, |a| + |x|, t2, |b|, |b| + |y|);
    OneHole(c, z, d);
    Shifted(s, |a| + |x| + |b| + |y|, t3, |c|, |c| + |z|);
  }

  /** A text of the shape of FourHoles ends with e, right after w. */
  lemma FourHolesTail(a: string, x: string, b: string, y: string, c: string, z: string, d: string, w: string, e: string)
    ensures var s := a + (x + (b + (y + (c + (z + (d + (w + e)))))));
      s[|a| + |x| + |b| + |y| + |c| + |z| + |d| + |w| ..] == e
  {
    var t4 := d + (w + e);
    var t3 := c + (z + t4);
    var t2 := b + (y + t3);
    var s := a + (x + t2);
    OneHole(a, x, t2);
    OneHole(b, y, t3);
    Shifted(s, |a| + |x|, t2, |b| + |y|, |b| + |y|);
    OneHole(c, z, t4);
    Shifted(s, |a| + |x| + |b| + |y|, t3, |c| + |z|, |c| + |z|);
    OneHole(d, w, e);
    Shifted(s, |a| + |x| + |b| + |y| + |c| + |z|, t4, |d| + |w|, |d| + |w|);
  }

  /** In a text of the shape of FourHoles, the fixed parts b, c and d sit
      between the holes. */
  lemma FourHolesMiddles(a: string, x: string, b: string, y: string, c: string, z: string, d: string, w: string, e: string)
    ensures var s := a + (x + (b + (y + (c + (z + (d + (w + e)))))));
      var i := |a| + |x|;
      var j := i + |b| + |y|;
      var k := j + |c| + |z|;
      && s[i .. i + |b|] == b && s[j .. j + |c|] == c && s[k .. k + |d|] == d
  {
    var t := b + (y + (c + (z + (d + (w + e)))));
    var s := a + (x + t);
    OneHole(a, x, t);
    ThreeHolesMiddles(b, y, c, z, d, w, e);
    assert t[0..|b|] == b;
    var i := |a| + |x|;
    Shifted(s, i, t, 0, |b|);
    Shifted(s, i, t, |b| + |y|, |b| + |y| + |c|);
    Shifted(s, i, t, |b| + |y| + |c| + |z|, |b| + |y| + |c| + |z| + |d|);
  }

  /** In a text of the shape of ThreeHoles, the fixed parts b and c sit
      between the holes. */
  lemma ThreeHolesMiddles(a: string, x: string, b: string, y: string, c: string, z: string, d: string)
    ensures var s := a + (x + (b + (y + (c + (z + d)))));
      var i := |a| + |x|;
      var j := i + |b| + |y|;
      && s[i .. i + |b|] == b && s[j .. j + |c|] == c
  {
    var t3 := c + (z + d);
    var t2 := b + (y + t3);
    var s := a + (x + t2);
    OneHole(a, x, t2);
    Shifted(s, |a| + |x|, t2, 0, |b|);
    assert t2[0..|b|] == b;
    OneHole(b, y, t3);
    Shifted(s, |a| + |x|, t2, |b| + |y|, |b| + |y|);
    Shifted(s, |a| + |x| + |b| + |y|, t3, 0, |c|);
    assert t3[0..|c|] == c;
  }

  /** A text of the shape of ThreeHoles ends with d, right after z. */
  lemma ThreeHolesTail(a: string, x: string, b: string, y: string, c: string, z: string, d: string)
    ensures var s := a + (x + (b + (y + (c + (z + d)))));
      s[|a| + |x| + |b| + |y| + |c| + |z| ..] == d
  {
    var t3 := c + (z + d);
    var t2 := b + (y + t3);
    var s := a + (x + t2);
    OneHole(a, x, t2);
    OneHole(b, y, t3);
    Shifted(s, |a| + |x|, t2, |b| + |y|, |b| + |y|);
    OneHole(c, z, d);
    Shifted(s, |a| + |x| + |b| + |y|, t3, |c| + |z|, |c| + |z|);
  }

  /** What follows `pre` in `s`, if `s` starts with `pre`. */
  function After(pre: string, s: string): (r: Option<string>)
    ensures r.Some? <==> pre <= s
    ensures r.Some? ==> s == pre + r.value
  {
    if pre <= s then Some(s[|pre|..]) else None
  }

  lemma AfterConcat(pre: string, rest: string)
    ensures After(pre, pre + rest) == Some(rest)
  {
    assert (pre + rest)[..|pre|] == pre;
    assert (pre + rest)[|pre|..] == rest;
  }

  /** Splits `s` at the first occurrence of `stop`. */
  function SplitAt(s: string, stop: char): (p: (string, string))
    ensures p.0 + p.1 == s
    ensures stop !in p.0
    ensures p.1 == [] || p.1[0] == stop
  {
    if s == [] then ([], [])
    else if s[0] == stop then ([], s)
    else
      var rest := SplitAt(s[1..], stop);
      ([s[0]] + rest.0, rest.1)
  }

  lemma {:induction false} SplitAtConcat(a: string, b: string, stop: char)
    requires stop !in a
    requires b != [] && b[0] == stop
    ensures SplitAt(a + b, stop) == (a, b)
  {
    if a == [] {
      assert a + b == b;
    } else {
      assert (a + b)[0] == a[0];
      assert (a + b)[1..] == a[1..] + b;
      SplitAtConcat(a[1..], b, stop);
      assert [a[0]] + a[1..] == a;
    }
  }

  /** The parts joined in order, as a loop of `+=` from the empty string
      builds them. */
  function Concat(parts: seq<string>): string
    decreases |parts|
  {
    if parts == [] then "" else Concat(parts[..|parts| - 1]) + parts[|parts| - 1]
  }

  lemma ConcatSingle(x: string)
    ensures Concat([x]) == x
  {
    assert [x][..0] == [];
  }

  /** One more part appends that part to the join. */
  lemma ConcatSnoc(parts: seq<string>, i: nat)
    requires i < |parts|
    ensures Concat(parts[..i + 1]) == Concat(parts[..i]) + parts[i]
  {
    assert parts[..i + 1][..i] == parts[..i];
  }

  /** Joining two lists of parts one after the other gives the two joins one
      after the other. */
  lemma {:induction false} ConcatAppend(a: seq<string>, b: seq<string>)
    ensures Concat(a + b) == Concat(a) + Concat(b)
    decreases |b|
  {
    if b == [] {
      assert a + b == a;
    } else {
      var init := b[..|b| - 1];
      assert (a + b)[..|a + b| - 1] == a + init;
      assert (a + b)[|a + b| - 1] == b[|b| - 1];
      ConcatAppend(a, init);
    }
  }

  /** Part i sits in the join right after the parts before it. */
  lemma ConcatAt(parts: seq<string>, i: nat)
    requires i < |parts|
    ensures var o := |Concat(parts[..i])|;
      && o + |parts[i]| <= |Concat(parts)|
      && Concat(parts)[o .. o + |parts[i]|] == parts[i]
  {
    var before, after := parts[..i], parts[i + 1..];
    assert parts == before + [parts[i]] + after;
    ConcatAppend(before + [parts[i]], after);
    ConcatAppend(before, [parts[i]]);
    assert [parts[i]][..0] == [];
    var c := Concat(before) + parts[i];
    assert Concat(parts) == c + Concat(after);
    assert c[|Concat(before)| ..] == parts[i];
  }
}
