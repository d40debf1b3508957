/**
  `sanitizeFileName`: lower-case the name, replace every maximal run of characters
  outside `[a-z0-9]` with one `-`, then strip leading and trailing dashes.
 */
module FileNames {
  import opened Strings
  import opened Sequences

  /** A character the pattern `[a-z0-9]` matches. */
  predicate IsSlugChar(c: char) {
    'a' <= c <= 'z' || '0' <= c <= '9'
  }

  /** `.replace(/[^a-z0-9]+/g, '-')`, read left to right: a character outside the class
      starts a new dash only when the character before it was inside the class. */
  function ReplaceRuns(s: string): string
    decreases |s|
  {
    if |s| == 0 then []
    else
      var p := s[..|s| - 1];
      var c := s[|s| - 1];
      if IsSlugChar(c) then ReplaceRuns(p) + [c]
      else if |p| > 0 && !IsSlugChar(p[|p| - 1]) then ReplaceRuns(p)
      else ReplaceRuns(p) + ['-']
  }

  /** The `^-+` half of `.replace(/^-+|-+$/g, '')`. */
  function TrimLeading(s: string): (r: string)
    ensures |r| <= |s| && r == s[|s| - |r|..]
    ensures |r| > 0 ==> r[0] != '-'
    ensures forall i :: 0 <= i < |s| - |r| ==> s[i] == '-'
    decreases |s|
  {
    if |s| > 0 && s[0] == '-' then TrimLeading(s[1..]) else s
  }

  /** The `-+$` half of `.replace(/^-+|-+$/g, '')`. */
  function TrimTrailing(s: string): (r: string)
    ensures |r| <= |s| && r == s[..|r|]
    ensures |r| > 0 ==> r[|r| - 1] != '-'
    ensures forall i :: |r| <= i < |s| ==> s[i] == '-'
    decreases |s|
  {
    if |s| > 0 && s[|s| - 1] == '-' then TrimTrailing(s[..|s| - 1]) else s
  }

  /** `sanitizeFileName`: the result is a canonical slug that keeps the letters and
      digits of the lower-cased input, in order. */
  function Sanitize(name: string): (r: string)
    ensures Canonical(r)
    ensures SlugChars(r) == SlugChars(Lower(name))
  {
    ReplaceRunsShape(Lower(name));
    ReplaceRunsSlugChars(Lower(name));
    TrimShape(ReplaceRuns(Lower(name)));
    TrimTrailing(TrimLeading(ReplaceRuns(Lower(name))))
  }

  /** Only `[a-z0-9]` and `-`. */
  predicate SlugAlphabet(s: string) {
    forall i :: 0 <= i < |s| ==> IsSlugChar(s[i]) || s[i] == '-'
  }

  /** No `--` anywhere. */
  predicate NoDoubleDash(s: string) {
    forall i :: 0 <= i < |s| - 1 ==> !(s[i] == '-' && s[i + 1] == '-')
  }

  /** The shape every sanitised name has. */
  predicate Canonical(s: string) {
    && SlugAlphabet(s)
    && NoDoubleDash(s)
    && (|s| > 0 ==> s[0] != '-' && s[|s| - 1] != '-')
  }

  /** The `[a-z0-9]` characters of `s`, in order. */
  function SlugChars(s: string): (r: string)
    ensures |r| <= |s|
    ensures forall i :: 0 <= i < |r| ==> IsSlugChar(r[i])
    decreases |s|
  {
    if |s| == 0 then []
    else SlugChars(s[..|s| - 1]) + (if IsSlugChar(s[|s| - 1]) then [s[|s| - 1]] else [])
  }

  lemma {:induction false} SlugCharsAppend(a: string, b: string)
    ensures SlugChars(a + b) == SlugChars(a) + SlugChars(b)
    decreases |b|
  {
    if |b| == 0 {
      assert a + b == a;
    } else {
      var b' := b[..|b| - 1];
      assert (a + b)[..|a + b| - 1] == a + b';
      assert (a + b)[|a + b| - 1] == b[|b| - 1];
      SlugCharsAppend(a, b');
    }
  }

  /** A string of dashes carries no slug characters. */
  lemma {:induction false} SlugCharsOfDashes(s: string)
    requires forall i :: 0 <= i < |s| ==> s[i] == '-'
    ensures SlugChars(s) == []
    decreases |s|
  {
    if |s| > 0 {
      SlugCharsOfDashes(s[..|s| - 1]);
    }
  }

  /** What run replacement produces: the class alphabet, no `--`, and a dash at the end
      exactly when the input ends with a character outside the class. */
  lemma {:induction false} ReplaceRunsShape(s: string)
    ensures SlugAlphabet(ReplaceRuns(s)) && NoDoubleDash(ReplaceRuns(s))
    ensures |ReplaceRuns(s)| > 0 <==> |s| > 0
    ensures |s| > 0 ==> (ReplaceRuns(s)[|ReplaceRuns(s)| - 1] == '-' <==> !IsSlugChar(s[|s| - 1]))
    decreases |s|
  {
    if |s| > 0 {
      var p := s[..|s| - 1];
      var c := s[|s| - 1];
      ReplaceRunsShape(p);
      var rp := ReplaceRuns(p);
      if IsSlugChar(c) {
        AppendShape(rp, c);
      } else if |p| > 0 && !IsSlugChar(p[|p| - 1]) {
        assert ReplaceRuns(s) == rp;
      } else {
        assert |rp| > 0 ==> rp[|rp| - 1] != '-';
        AppendShape(rp, '-');
      }
    }
  }

  /** Appending one character keeps the alphabet and avoids `--` unless a dash follows a dash. */
  lemma AppendShape(r: string, c: char)
    requires SlugAlphabet(r) && NoDoubleDash(r)
    requires IsSlugChar(c) || c == '-'
    requires c == '-' && |r| > 0 ==> r[|r| - 1] != '-'
    ensures SlugAlphabet(r + [c]) && NoDoubleDash(r + [c])
  {
    var t := r + [c];
    forall k | 0 <= k < |t| - 1
      ensures !(t[k] == '-' && t[k + 1] == '-')
    {
      if k + 1 < |r| {
        assert t[k] == r[k] && t[k + 1] == r[k + 1];
      }
    }
  }

  /** Run replacement keeps every letter and digit, in order. */
  lemma {:induction false} ReplaceRunsSlugChars(s: string)
    ensures SlugChars(ReplaceRuns(s)) == SlugChars(s)
    decreases |s|
  {
    if |s| > 0 {
      var p := s[..|s| - 1];
      var c := s[|s| - 1];
      ReplaceRunsSlugChars(p);
      var rp := ReplaceRuns(p);
      if IsSlugChar(c) {
        SlugCharsAppend(rp, [c]);
      } else if |p| > 0 && !IsSlugChar(p[|p| - 1]) {
      } else {
        SlugCharsAppend(rp, ['-']);
      }
    }
  }

  /** A slice of a string in the alphabet without `--` is one as well. */
  lemma SliceShape(s: string, i: nat, j: nat)
    requires i <= j <= |s|
    requires SlugAlphabet(s) && NoDoubleDash(s)
    ensures SlugAlphabet(s[i..j]) && NoDoubleDash(s[i..j])
  {
    var t := s[i..j];
    forall k | 0 <= k < |t|
      ensures IsSlugChar(t[k]) || t[k] == '-'
    {
      assert t[k] == s[i + k];
    }
    forall k | 0 <= k < |t| - 1
      ensures !(t[k] == '-' && t[k + 1] == '-')
    {
      assert t[k] == s[i + k] && t[k + 1] == s[i + k + 1];
    }
  }

  /** Stripping leading dashes keeps a suffix, so the alphabet and the no-`--` property survive. */
  lemma TrimLeadingShape(s: string)
    requires SlugAlphabet(s) && NoDoubleDash(s)
    ensures SlugAlphabet(TrimLeading(s)) && NoDoubleDash(TrimLeading(s))
  {
    var l := TrimLeading(s);
    var k := |s| - |l|;
    assert l == s[k..];
    SliceShape(s, k, |s|);
  }

  /** Stripping leading dashes removes no letter or digit. */
  lemma TrimLeadingSlugChars(s: string)
    ensures SlugChars(TrimLeading(s)) == SlugChars(s)
  {
    var l := TrimLeading(s);
    var d := s[..|s| - |l|];
    assert s == d + l;
    assert forall i :: 0 <= i < |d| ==> d[i] == '-';
    SlugCharsOfDashes(d);
    SlugCharsAppend(d, l);
  }

  /** Stripping trailing dashes keeps a prefix and its first character. */
  lemma TrimTrailingShape(l: string)
    requires SlugAlphabet(l) && NoDoubleDash(l)
    ensures SlugAlphabet(TrimTrailing(l)) && NoDoubleDash(TrimTrailing(l))
    ensures |TrimTrailing(l)| > 0 ==> TrimTrailing(l)[0] == l[0]
  {
    var t := TrimTrailing(l);
    assert t == l[..|t|];
    SliceShape(l, 0, |t|);
  }

  /** Stripping trailing dashes removes no letter or digit. */
  lemma TrimTrailingSlugChars(l: string)
    ensures SlugChars(TrimTrailing(l)) == SlugChars(l)
  {
    var t := TrimTrailing(l);
    var d := l[|t|..];
    assert l == t + d;
    assert forall i :: 0 <= i < |d| ==> d[i] == '-';
    SlugCharsOfDashes(d);
    SlugCharsAppend(t, d);
  }

  /** Trimming both ends of a run-replaced string gives a canonical one. */
  lemma {:induction false} TrimShape(s: string)
    requires SlugAlphabet(s) && NoDoubleDash(s)
    ensures Canonical(TrimTrailing(TrimLeading(s)))
    ensures SlugChars(TrimTrailing(TrimLeading(s))) == SlugChars(s)
  {
    TrimLeadingShape(s);
    TrimLeadingSlugChars(s);
    TrimTrailingShape(TrimLeading(s));
    TrimTrailingSlugChars(TrimLeading(s));
  }

  /** On a string already in the alphabet without `--`, run replacement changes nothing. */
  lemma {:induction false} ReplaceRunsFixes(s: string)
    requires SlugAlphabet(s) && NoDoubleDash(s)
    ensures ReplaceRuns(s) == s
    decreases |s|
  {
    if |s| > 0 {
      var p := s[..|s| - 1];
      assert forall i :: 0 <= i < |p| ==> p[i] == s[i];
      ReplaceRunsFixes(p);
      assert p + [s[|s| - 1]] == s;
    }
  }

  /** A canonical name is returned unchanged. */
  lemma CanonicalIsFixed(s: string)
    requires Canonical(s)
    ensures Sanitize(s) == s
  {
    assert Lower(s) == s;
    ReplaceRunsFixes(s);
  }

  /** Sanitising twice is sanitising once. */
  lemma SanitizeIdempotent(name: string)
    ensures Sanitize(Sanitize(name)) == Sanitize(name)
  {
    CanonicalIsFixed(Sanitize(name));
  }

  /** A name made only of lower-case letters and digits comes back unchanged. */
  lemma SlugOnlyUnchanged(name: string)
    requires forall i :: 0 <= i < |name| ==> IsSlugChar(name[i])
    ensures Sanitize(name) == name
  {
    CanonicalIsFixed(name);
  }

  // ---------------------------------------------------------------------------
  // One dash per separator run
  // ---------------------------------------------------------------------------

  /** After a letter or digit (or at the very start), run replacement treats what
      follows on its own. */
  lemma {:induction false} ReplaceRunsAppend(p: string, q: string)
    requires |p| == 0 || IsSlugChar(p[|p| - 1])
    ensures ReplaceRuns(p + q) == ReplaceRuns(p) + ReplaceRuns(q)
    decreases |q|
  {
    if |q| == 0 {
      assert p + q == p;
    } else {
      var q' := q[..|q| - 1];
      var c := q[|q| - 1];
      var pq := p + q;
      assert pq[..|pq| - 1] == p + q' && pq[|pq| - 1] == c;
      ReplaceRunsAppend(p, q');
      var rp, rq' := ReplaceRuns(p), ReplaceRuns(q');
      if |q'| > 0 {
        assert (p + q')[|p + q'| - 1] == q'[|q'| - 1];
      }
      if IsSlugChar(c) {
        AppendAssoc(rp, rq', [c]);
      } else if |p + q'| > 0 && !IsSlugChar((p + q')[|p + q'| - 1]) {
        assert ReplaceRuns(q) == rq';
      } else {
        AppendAssoc(rp, rq', ['-']);
      }
    }
  }

  /** A non-empty run of characters outside the class becomes a single dash. */
  lemma {:induction false} ReplaceRunsOfSeparators(s: string)
    requires |s| > 0
    requires forall i :: 0 <= i < |s| ==> !IsSlugChar(s[i])
    ensures ReplaceRuns(s) == "-"
    decreases |s|
  {
    if |s| > 1 {
      ReplaceRunsOfSeparators(s[..|s| - 1]);
    }
  }

  /** A separator run in front of a letter or digit turns into one dash, and the rest is
      replaced as if it stood alone; the letter or digit stays first. */
  lemma SeparatorsThenSlug(s: string, b: string)
    requires |s| > 0
    requires forall i :: 0 <= i < |s| ==> !IsSlugChar(s[i])
    requires |b| > 0 && IsSlugChar(b[0])
    ensures ReplaceRuns(s + b) == "-" + ReplaceRuns(b)
    ensures |ReplaceRuns(b)| > 0 && ReplaceRuns(b)[0] == b[0]
  {
    var head, rest := [b[0]], b[1..];
    assert b == head + rest;
    ReplaceRunsAppend(head, rest);
    assert ReplaceRuns(head) == head by { assert head[..0] == []; }
    var sh := s + head;
    assert sh[..|sh| - 1] == s;
    ReplaceRunsOfSeparators(s);
    assert ReplaceRuns(sh) == "-" + head;
    AppendAssoc(s, head, rest);
    ReplaceRunsAppend(sh, rest);
    AppendAssoc("-", head, ReplaceRuns(rest));
  }

  /** Leading dashes of `u + v` all come from `u` when `u` ends with something else. */
  lemma {:induction false} TrimLeadingAppend(u: string, v: string)
    requires |u| > 0 && u[|u| - 1] != '-'
    ensures TrimLeading(u + v) == TrimLeading(u) + v
    decreases |u|
  {
    if u[0] == '-' {
      assert (u + v)[1..] == u[1..] + v;
      TrimLeadingAppend(u[1..], v);
    }
  }

  /** Trailing dashes of `u + v` all come from `v` when `v` starts with something else. */
  lemma {:induction false} TrimTrailingAppend(u: string, v: string)
    requires |v| > 0 && v[0] != '-'
    ensures TrimTrailing(u + v) == u + TrimTrailing(v)
    decreases |v|
  {
    var uv := u + v;
    if v[|v| - 1] == '-' {
      assert uv[..|uv| - 1] == u + v[..|v| - 1];
      TrimTrailingAppend(u, v[..|v| - 1]);
    }
  }

  /** Folding to lower case twice is folding once. */
  lemma LowerTwice(x: string, a: string, k: nat)
    requires k + |a| <= |x|
    requires a == Lower(x)[k..k + |a|]
    ensures Lower(a) == a
  {
    forall i | 0 <= i < |a|
      ensures Lower(a)[i] == a[i]
    {
      assert a[i] == LowerChar(x[k + i]);
    }
  }

  /** Run replacement across one separator run between two letters or digits. */
  lemma ReplaceRunsAtSeparatorRun(a: string, s: string, b: string)
    requires |a| > 0 && IsSlugChar(a[|a| - 1])
    requires |s| > 0 && forall i :: 0 <= i < |s| ==> !IsSlugChar(s[i])
    requires |b| > 0 && IsSlugChar(b[0])
    ensures ReplaceRuns(a + s + b) == ReplaceRuns(a) + ("-" + ReplaceRuns(b))
    ensures |ReplaceRuns(a)| > 0 && ReplaceRuns(a)[|ReplaceRuns(a)| - 1] != '-'
    ensures |ReplaceRuns(b)| > 0 && ReplaceRuns(b)[0] != '-'
  {
    AppendAssoc(a, s, b);
    ReplaceRunsAppend(a, s + b);
    SeparatorsThenSlug(s, b);
    ReplaceRunsShape(a);
  }

  /** Trimming a string with one inner dash between two dash-free ends keeps that dash. */
  lemma TrimAroundDash(u: string, v: string)
    requires |u| > 0 && u[|u| - 1] != '-'
    requires |v| > 0 && v[0] != '-'
    ensures TrimTrailing(TrimLeading(u + ("-" + v)))
      == TrimTrailing(TrimLeading(u)) + "-" + TrimTrailing(TrimLeading(v))
  {
    TrimLeadingAppend(u, "-" + v);
    var l := TrimLeading(u);
    assert |l| > 0 && l[|l| - 1] == u[|u| - 1];
    AppendAssoc(l, "-", v);
    TrimTrailingAppend(l + "-", v);
    assert TrimTrailing(l) == l;
    assert TrimLeading(v) == v;
  }

  /** Every maximal run of characters outside `[a-z0-9]` between two letters or digits
      becomes exactly one `-`: the name sanitises to the part before the run, a dash,
      and the part after it. */
  lemma SanitizeSplitsAtSeparatorRun(name: string, a: string, s: string, b: string)
    requires Lower(name) == a + s + b
    requires |a| > 0 && IsSlugChar(a[|a| - 1])
    requires |s| > 0 && forall i :: 0 <= i < |s| ==> !IsSlugChar(s[i])
    requires |b| > 0 && IsSlugChar(b[0])
    ensures Sanitize(name) == Sanitize(a) + "-" + Sanitize(b)
  {
    LowerTwice(name, a, 0);
    LowerTwice(name, b, |a| + |s|);
    ReplaceRunsAtSeparatorRun(a, s, b);
    TrimAroundDash(ReplaceRuns(a), ReplaceRuns(b));
  }
}
