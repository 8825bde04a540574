/** Python's string operations that the pipeline relies on: the substring
    test `t in s` and `s.replace(target, replacement)`. */
module Text {

  /** `s.startswith(t)`. */
  predicate HasPrefix(s: string, t: string) {
    |t| <= |s| && s[..|t|] == t
  }

  /** `s.endswith(t)`. */
  predicate HasSuffix(s: string, t: string) {
    |t| <= |s| && s[|s| - |t|..] == t
  }

  /** A string ending with `y` ends with every suffix of `y`. */
  lemma {:induction false} SuffixOfSuffix(x: string, y: string, e: string)
    requires HasSuffix(x, y) && HasSuffix(y, e)
    ensures HasSuffix(x, e)
  {
    assert x[|x| - |e|..] == x[|x| - |y|..][|y| - |e|..];
  }

  /** `t` occurs in `s` starting at position `i`. */
  predicate OccursAt(s: string, t: string, i: nat) {
    i + |t| <= |s| && s[i..i + |t|] == t
  }

  /** Python's `t in s`. */
  predicate Contains(s: string, t: string)
    decreases |s|
  {
    HasPrefix(s, t) || (s != [] && Contains(s[1..], t))
  }

  /** `Contains` holds exactly when `t` occurs at some position of `s`. */
  lemma {:induction false} ContainsIffOccurs(s: string, t: string)
    ensures Contains(s, t) <==> exists i: nat :: OccursAt(s, t, i)
    decreases |s|
  {
    if Contains(s, t) {
      if HasPrefix(s, t) {
        assert OccursAt(s, t, 0);
      } else {
        ContainsIffOccurs(s[1..], t);
        var i: nat :| OccursAt(s[1..], t, i);
        assert s[i + 1..i + 1 + |t|] == s[1..][i..i + |t|];
        assert OccursAt(s, t, i + 1);
      }
    }
    if i: nat :| OccursAt(s, t, i) {
      if i > 0 {
        assert s[1..][i - 1..i - 1 + |t|] == s[i..i + |t|];
        assert OccursAt(s[1..], t, i - 1);
        ContainsIffOccurs(s[1..], t);
      } else {
        assert HasPrefix(s, t);
      }
    }
  }

  /** An occurrence in `x` is an occurrence in `x + y`. */
  lemma {:induction false} ContainsConcatLeft(x: string, y: string, w: string)
    requires Contains(x, w)
    ensures Contains(x + y, w)
    decreases |x|
  {
    if HasPrefix(x, w) {
      assert (x + y)[..|w|] == x[..|w|];
    } else {
      ContainsConcatLeft(x[1..], y, w);
      assert (x + y)[1..] == x[1..] + y;
    }
  }

  /** An occurrence in `y` is an occurrence in `x + y`. */
  lemma {:induction false} ContainsConcatRight(x: string, y: string, w: string)
    requires Contains(y, w)
    ensures Contains(x + y, w)
    decreases |x|
  {
    if x == [] {
      assert x + y == y;
    } else {
      ContainsConcatRight(x[1..], y, w);
      assert (x + y)[1..] == x[1..] + y;
    }
  }

  /** `s.replace("", sep)`: `sep` before every character and at the end. */
  function Interleave(s: string, sep: string): string
    decreases |s|
  {
    if s == [] then sep else sep + [s[0]] + Interleave(s[1..], sep)
  }

  /** Python's `s.replace(target, replacement)`. */
  function ReplaceAll(s: string, target: string, replacement: string): string {
    if target == [] then Interleave(s, replacement) else ReplaceEach(s, target, replacement)
  }

  /** `replace` with a non-empty target: scanning left to right, an
      occurrence of the target is replaced and skipped over, any other
      character is kept. */
  function ReplaceEach(s: string, target: string, replacement: string): string
    requires target != []
    decreases |s|
  {
    if s == [] then []
    else if HasPrefix(s, target) then replacement + ReplaceEach(s[|target|..], target, replacement)
    else [s[0]] + ReplaceEach(s[1..], target, replacement)
  }

  /** Without an occurrence of a non-empty target, `replace` changes nothing. */
  lemma {:induction false} ReplaceAbsent(s: string, target: string, replacement: string)
    requires target != [] && !Contains(s, target)
    ensures ReplaceAll(s, target, replacement) == s
    decreases |s|
  {
    if s != [] {
      ReplaceAbsent(s[1..], target, replacement);
      assert [s[0]] + s[1..] == s;
    }
  }

  /** A target whose first character does not occur in `p` is found only
      at the end of `p + target`, so `replace` rewrites just that end. */
  lemma {:induction false} ReplaceAtEnd(p: string, target: string, replacement: string)
    requires target != [] && target[0] !in p
    ensures ReplaceAll(p + target, target, replacement) == p + replacement
    decreases |p|
  {
    if p == [] {
      assert p + target == target && HasPrefix(target, target) && target[|target|..] == [];
      assert ReplaceEach(target, target, replacement) == replacement + ReplaceEach([], target, replacement);
      assert replacement + [] == replacement;
    } else {
      assert (p + target)[..|target|][0] == p[0] != target[0];
      assert (p + target)[1..] == p[1..] + target;
      ReplaceAtEnd(p[1..], target, replacement);
      assert [p[0]] + (p[1..] + replacement) == p + replacement;
    }
  }

  /** When the target occurs, whatever occurs in the replacement occurs in
      the result. */
  lemma {:induction false} ReplaceIntroduces(s: string, target: string, replacement: string, w: string)
    requires target != [] && Contains(s, target) && Contains(replacement, w)
    ensures Contains(ReplaceAll(s, target, replacement), w)
    decreases |s|
  {
    if HasPrefix(s, target) {
      ContainsConcatLeft(replacement, ReplaceEach(s[|target|..], target, replacement), w);
    } else {
      ReplaceIntroduces(s[1..], target, replacement, w);
      ContainsConcatRight([s[0]], ReplaceEach(s[1..], target, replacement), w);
    }
  }

  /** A target that starts `p + [c] + q` and is longer than `p` has `c`
      right after its first `|p|` characters. */
  lemma {:induction false} PrefixReads(p: string, c: char, q: string, t: string)
    ensures HasPrefix(p + [c] + q, t) && |t| > |p| ==> t[|p|] == c
  {
    if HasPrefix(p + [c] + q, t) && |t| > |p| {
      assert t[|p|] == (p + [c] + q)[..|t|][|p|];
    }
  }

  lemma {:induction false} PrefixExtends(p: string, x: string, t: string)
    ensures HasPrefix(p, t) ==> HasPrefix(p + x, t)
  {
    if HasPrefix(p, t) {
      assert (p + x)[..|t|] == p[..|t|];
    }
  }

  /** Concatenation is associative; shared by every module that regroups
      strings or command logs. */
  lemma {:induction false} ConcatAssoc<T>(a: seq<T>, b: seq<T>, c: seq<T>)
    ensures a + (b + c) == (a + b) + c
  {
  }

  /** The step of `ReplaceAcrossSeparator` where the target starts `p`. */
  lemma {:induction false} AcrossMatch(p: string, c: char, q: string, target: string, replacement: string)
    requires target != [] && HasPrefix(p, target)
    requires ReplaceEach(p[|target|..] + [c] + q, target, replacement)
          == ReplaceEach(p[|target|..], target, replacement) + [c] + ReplaceEach(q, target, replacement)
    ensures ReplaceEach(p + [c] + q, target, replacement)
         == ReplaceEach(p, target, replacement) + [c] + ReplaceEach(q, target, replacement)
  {
    var s := p + [c] + q;
    PrefixExtends(p, [c], target);
    PrefixExtends(p + [c], q, target);
    assert s[|target|..] == p[|target|..] + [c] + q;
    ConcatAssoc(replacement, ReplaceEach(p[|target|..], target, replacement) + [c], ReplaceEach(q, target, replacement));
    ConcatAssoc(replacement, ReplaceEach(p[|target|..], target, replacement), [c]);
  }

  /** The step of `ReplaceAcrossSeparator` where the first character of a
      non-empty `p` is kept. */
  lemma {:induction false} AcrossSkip(p: string, c: char, q: string, target: string, replacement: string)
    requires target != [] && p != [] && !HasPrefix(p + [c] + q, target)
    requires ReplaceEach(p[1..] + [c] + q, target, replacement)
          == ReplaceEach(p[1..], target, replacement) + [c] + ReplaceEach(q, target, replacement)
    ensures ReplaceEach(p + [c] + q, target, replacement)
         == ReplaceEach(p, target, replacement) + [c] + ReplaceEach(q, target, replacement)
  {
    var s := p + [c] + q;
    assert s[1..] == p[1..] + [c] + q;
    PrefixExtends(p, [c], target);
    PrefixExtends(p + [c], q, target);
    ConcatAssoc([p[0]], ReplaceEach(p[1..], target, replacement) + [c], ReplaceEach(q, target, replacement));
    ConcatAssoc([p[0]], ReplaceEach(p[1..], target, replacement), [c]);
  }

  /** A character the target does not contain splits the replacement in two:
      no occurrence can span it. */
  lemma {:induction false} ReplaceAcrossSeparator(p: string, c: char, q: string, target: string, replacement: string)
    requires target != [] && c !in target
    ensures ReplaceAll(p + [c] + q, target, replacement)
         == ReplaceAll(p, target, replacement) + [c] + ReplaceAll(q, target, replacement)
    decreases |p|
  {
    var s := p + [c] + q;
    PrefixReads(p, c, q, target);
    if p == [] {
      assert s == [c] + q && s[1..] == q;
      assert !HasPrefix(s, target) by {
        PrefixReads([], c, q, target);
      }
      assert [c] + ReplaceEach(q, target, replacement) == [] + [c] + ReplaceEach(q, target, replacement);
    } else if HasPrefix(s, target) {
      assert p[..|target|] == s[..|target|];
      ReplaceAcrossSeparator(p[|target|..], c, q, target, replacement);
      AcrossMatch(p, c, q, target, replacement);
    } else {
      ReplaceAcrossSeparator(p[1..], c, q, target, replacement);
      AcrossSkip(p, c, q, target, replacement);
    }
  }

  /** A string that starts with the target, and has no further occurrence
      after it, has just that occurrence replaced. */
  lemma {:induction false} ReplaceLeading(f: string, x: string, f': string)
    requires f != [] && !Contains(x, f)
    ensures ReplaceAll(f + x, f, f') == f' + x
  {
    assert (f + x)[..|f|] == f;
    assert (f + x)[|f|..] == x;
    ReplaceAbsent(x, f, f');
  }

  /** The rename of a component that follows a '/'. */
  lemma {:induction false} RenameAfterSlash(z0: string, f: string, x: string, f': string)
    requires f != [] && '/' !in f
    requires !Contains(z0, f) && !Contains(x, f)
    ensures ReplaceAll(z0 + ['/'] + f + x, f, f') == z0 + ['/'] + f' + x
  {
    ReplaceLeading(f, x, f');
    ReplaceAbsent(z0, f, f');
    ReplaceAcrossSeparator(z0, '/', f + x, f, f');
    assert z0 + ['/'] + f + x == z0 + ['/'] + (f + x);
    assert z0 + ['/'] + f' + x == z0 + ['/'] + (f' + x);
  }

  /** Renaming the last path component: when the component `f` holds no '/'
      and occurs neither in the directory part `z` (empty or ending in '/')
      nor in the suffix `x`, replacing `f` by `f'` rewrites exactly that
      component. */
  lemma {:induction false} RenameLastComponent(z: string, f: string, x: string, f': string)
    requires z == [] || z[|z| - 1] == '/'
    requires f != [] && '/' !in f
    requires !Contains(z, f) && !Contains(x, f)
    ensures ReplaceAll(z + f + x, f, f') == z + f' + x
  {
    if z == [] {
      ReplaceLeading(f, x, f');
      assert z + f == f && z + f' == f';
    } else {
      var z0 := z[..|z| - 1];
      assert z == z0 + ['/'];
      if Contains(z0, f) {
        ContainsConcatLeft(z0, ['/'], f);
      }
      RenameAfterSlash(z0, f, x, f');
    }
  }
}
