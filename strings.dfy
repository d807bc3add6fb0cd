// Python string containment (`p in s`) and `sep.join(xs)`, with the lemmas
// used to decide containment on file names built from fixed fragments.
module Strings {

  /** `p in s`: `p` occurs in `s`, tried at offset 0 and then further right. */
  function Contains(s: string, p: string): (b: bool)
    ensures b ==> |p| <= |s|
    ensures p <= s ==> b
    decreases |s|
  {
    |p| <= |s| && (p <= s || Contains(s[1..], p))
  }

  /** `p` occurs in `s` starting at offset `i`. */
  predicate OccursAt(s: string, p: string, i: nat)
  {
    i + |p| <= |s| && s[i..i + |p|] == p
  }

  /** Containment is an occurrence at some offset. */
  lemma {:induction false} ContainsAt(s: string, p: string)
    ensures Contains(s, p) <==> exists i: nat :: OccursAt(s, p, i)
    decreases |s|
  {
    if |p| <= |s| {
      if p <= s {
        assert OccursAt(s, p, 0);
      } else {
        ContainsAt(s[1..], p);
        if Contains(s[1..], p) {
          var i: nat :| OccursAt(s[1..], p, i);
          assert s[i + 1..i + 1 + |p|] == s[1..][i..i + |p|];
          assert OccursAt(s, p, i + 1);
        } else {
          forall i: nat | OccursAt(s, p, i) && i > 0 ensures false {
            assert s[1..][i - 1..i - 1 + |p|] == s[i..i + |p|];
            assert OccursAt(s[1..], p, i - 1);
          }
        }
      }
    } else {
      forall i: nat | OccursAt(s, p, i) ensures false {
      }
    }
  }

  /** A block none of whose characters can start `p` can be stepped over. */
  lemma {:induction false} SkipBlock(w: string, s: string, p: string)
    requires |p| > 0 && p[0] !in w
    ensures Contains(w + s, p) <==> Contains(s, p)
    decreases |w|
  {
    if |w| == 0 {
      assert w + s == s;
    } else {
      assert (w + s)[1..] == w[1..] + s;
      assert w[0] == (w + s)[0];
      assert p[0] !in w[1..] by {
        assert forall c :: c in w[1..] ==> c in w;
      }
      SkipBlock(w[1..], s, p);
    }
  }

  /** An offset whose second character differs from `p`'s can be stepped over. */
  lemma SkipSecond(s: string, p: string)
    requires |s| >= 2 && |p| >= 2 && s[1] != p[1]
    ensures Contains(s, p) <==> Contains(s[1..], p)
  {
  }

  /** An offset that does not start `p` can be stepped over. */
  lemma SkipOne(c: char, s: string, p: string)
    requires !(p <= [c] + s)
    ensures Contains([c] + s, p) <==> Contains(s, p)
  {
    assert ([c] + s)[1..] == s;
  }

  /** A string starting with `p` contains it. */
  lemma ContainsPrefix(p: string, s: string)
    ensures Contains(p + s, p)
  {
    assert p <= p + s;
  }

  /** Nothing non-empty occurs in the empty string. */
  lemma NotInEmpty(p: string)
    requires |p| > 0
    ensures !Contains([], p)
  {
  }

  /** `sep + ys[0] + sep + ys[1] + ...`: the tail of a join. */
  function Prefixed(sep: string, ys: seq<string>): (r: string)
    ensures |ys| > 0 ==> r == sep + ys[0] + Prefixed(sep, ys[1..])
    ensures (forall c :: c in sep ==> c != '_') ==> ((forall k :: 0 <= k < |ys| ==> '_' !in ys[k]) ==> '_' !in r)
  {
    if ys == [] then ""
    else
      var tail := Prefixed(sep, ys[1..]);
      assert forall k :: 0 <= k < |ys| - 1 ==> ys[1..][k] == ys[k + 1];
      sep + ys[0] + tail
  }

  /** Python's `sep.join(xs)`. */
  function JoinWith(sep: string, xs: seq<string>): (r: string)
    ensures |xs| == 1 ==> r == xs[0]
    ensures |xs| > 1 ==> r == xs[0] + sep + JoinWith(sep, xs[1..])
  {
    if xs == [] then "" else xs[0] + Prefixed(sep, xs[1..])
  }

  /** Prefixes are compared after a common first character. */
  lemma ConsPrefix(c: char, a: string, b: string)
    ensures [c] + a <= [c] + b <==> a <= b
  {
    if [c] + a <= [c] + b {
      assert a == ([c] + a)[1..] == ([c] + b)[1..|a| + 1] == b[..|a|];
    }
    if a <= b {
      assert ([c] + b)[..|a| + 1] == [c] + b[..|a|];
    }
  }

  /** A prefix of a dot-free string followed by a dotted tail. */
  lemma DotPrefix(w: string, f: string, t: string)
    requires '.' !in w && '.' !in f && (t == [] || t[0] == '.')
    ensures w <= f + t <==> w <= f
    ensures w + "." <= f + t <==> (w == f && t != [])
  {
    if |w| <= |f| {
      assert (f + t)[..|w|] == f[..|w|];
    } else if |w| <= |f + t| {
      assert (f + t)[..|w|][|f|] == t[0];
    }
    if |w| < |f| {
      assert (f + t)[..|w| + 1][|w|] == f[|w|];
      assert (w + ".")[|w|] == '.';
    }
    assert w + "." <= f + t ==> w <= f + t;
    if w + "." <= f + t && |w| == |f| {
      assert w == (f + t)[..|f|];
    }
    if w == f && t != [] {
      assert f + t == w + "." + t[1..];
    }
  }

  /** The first field of a dot-led join and the join of the remaining ones. */
  lemma PrefixedHead(fs: seq<string>)
    requires |fs| > 0
    ensures Prefixed(".", fs) == "." + (fs[0] + Prefixed(".", fs[1..]))
    ensures Prefixed(".", fs[1..]) == [] || Prefixed(".", fs[1..])[0] == '.'
    ensures Prefixed(".", fs[1..]) != [] <==> |fs| > 1
  {
    var tail := Prefixed(".", fs[1..]);
    assert "." + fs[0] + tail == "." + (fs[0] + tail);
    if |fs| > 1 {
      assert tail == "." + fs[1..][0] + Prefixed(".", fs[1..][1..]);
      assert tail[0] == '.';
    }
  }

  /** A `.`-led pattern occurs in `.f` + `rest` iff it starts there or occurs in `rest`. */
  lemma DotStep(f: string, rest: string, pat: string)
    requires '.' !in f && |pat| > 0 && pat[0] == '.'
    ensures Contains("." + (f + rest), pat) <==> (pat <= "." + (f + rest) || Contains(rest, pat))
  {
    var s := "." + (f + rest);
    assert s[1..] == f + rest;
    SkipBlock(f, rest, pat);
  }

  /** Within `.f0.f1...`, a `.`-led pattern occurs iff it starts some field. */
  lemma {:induction false} LeadingDotPattern(fs: seq<string>, w: string)
    requires '.' !in w && forall k :: 0 <= k < |fs| ==> '.' !in fs[k]
    ensures Contains(Prefixed(".", fs), "." + w) <==> exists k :: 0 <= k < |fs| && w <= fs[k]
  {
    if fs == [] {
      NotInEmpty("." + w);
    } else {
      var rest := Prefixed(".", fs[1..]);
      PrefixedHead(fs);
      assert forall k :: 0 <= k < |fs| - 1 ==> fs[1..][k] == fs[k + 1];
      LeadingDotPattern(fs[1..], w);
      DotStep(fs[0], rest, "." + w);
      ConsPrefix('.', w, fs[0] + rest);
      DotPrefix(w, fs[0], rest);
      if Contains(rest, "." + w) {
        var k :| 0 <= k < |fs| - 1 && w <= fs[1..][k];
        assert w <= fs[k + 1];
      }
      if exists k :: 0 <= k < |fs| && w <= fs[k] {
        var k :| 0 <= k < |fs| && w <= fs[k];
        if k > 0 {
          assert w <= fs[1..][k - 1];
        }
      }
    }
  }

  /** Within `.f0.f1...`, `.w.` occurs iff `w` is a field followed by another. */
  lemma {:induction false} FieldPattern(fs: seq<string>, w: string)
    requires '.' !in w && forall k :: 0 <= k < |fs| ==> '.' !in fs[k]
    ensures Contains(Prefixed(".", fs), "." + w + ".") <==> exists k :: 0 <= k < |fs| - 1 && fs[k] == w
  {
    if fs == [] {
      NotInEmpty("." + w + ".");
    } else {
      var rest := Prefixed(".", fs[1..]);
      PrefixedHead(fs);
      assert forall k :: 0 <= k < |fs| - 1 ==> fs[1..][k] == fs[k + 1];
      FieldPattern(fs[1..], w);
      assert "." + w + "." == "." + (w + ".");
      DotStep(fs[0], rest, "." + w + ".");
      ConsPrefix('.', w + ".", fs[0] + rest);
      DotPrefix(w, fs[0], rest);
      if Contains(rest, "." + w + ".") {
        var k :| 0 <= k < |fs| - 2 && fs[1..][k] == w;
        assert fs[k + 1] == w;
      }
      if exists k :: 0 <= k < |fs| - 1 && fs[k] == w {
        var k :| 0 <= k < |fs| - 1 && fs[k] == w;
        if k > 0 {
          assert fs[1..][k - 1] == w;
        }
      }
    }
  }
}
