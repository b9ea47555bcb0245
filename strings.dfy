/**
 * String helpers shared by the routing and menu code: prefix and substring
 * tests, and the `replace(/\/+/g, '/')` normalisation that collapses every
 * run of slashes into one.
 */
module Strings {

  predicate StartsWith(s: string, prefix: string) {
    |prefix| <= |s| && s[..|prefix|] == prefix
  }

  /** `k` occurs in `s` starting at index `i`. */
  predicate OccursAt(s: string, k: string, i: int) {
    0 <= i <= |s| - |k| && s[i..i + |k|] == k
  }

  /** `s.includes(k)` */
  predicate Contains(s: string, k: string) {
    exists i | 0 <= i <= |s| - |k| :: OccursAt(s, k, i)
  }

  /** No two consecutive slashes anywhere in `s`. */
  predicate NoDoubleSlash(s: string) {
    forall i :: 0 <= i < |s| - 1 ==> !(s[i] == '/' && s[i + 1] == '/')
  }

  /** `s.replace(/\/+/g, '/')`: every run of `/` becomes a single `/`. */
  function CollapseSlashes(s: string): string {
    if |s| == 0 then ""
    else if |s| >= 2 && s[0] == '/' && s[1] == '/' then CollapseSlashes(s[1..])
    else [s[0]] + CollapseSlashes(s[1..])
  }

  /** Collapsing keeps the first character (a run starting at 0 keeps one `/`). */
  lemma {:induction false} CollapseKeepsFirst(s: string)
    requires |s| > 0
    ensures |CollapseSlashes(s)| > 0 && CollapseSlashes(s)[0] == s[0]
  {
    if |s| >= 2 && s[0] == '/' && s[1] == '/' {
      CollapseKeepsFirst(s[1..]);
    }
  }

  /** The result of collapsing never contains `//`. */
  lemma {:induction false} CollapseNoDoubleSlash(s: string)
    ensures NoDoubleSlash(CollapseSlashes(s))
  {
    if |s| == 0 {
    } else if |s| >= 2 && s[0] == '/' && s[1] == '/' {
      CollapseNoDoubleSlash(s[1..]);
    } else {
      CollapseNoDoubleSlash(s[1..]);
      var rest := CollapseSlashes(s[1..]);
      if |s| >= 2 {
        CollapseKeepsFirst(s[1..]);
      }
      assert CollapseSlashes(s) == [s[0]] + rest;
    }
  }

  /** A string without `//` is left unchanged by collapsing. */
  lemma {:induction false} CollapseIdentity(s: string)
    requires NoDoubleSlash(s)
    ensures CollapseSlashes(s) == s
  {
    if |s| > 0 {
      assert NoDoubleSlash(s[1..]) by {
        forall i | 0 <= i < |s[1..]| - 1
          ensures !(s[1..][i] == '/' && s[1..][i + 1] == '/')
        {
          assert s[1..][i] == s[i + 1] && s[1..][i + 1] == s[i + 2];
        }
      }
      CollapseIdentity(s[1..]);
      assert !(|s| >= 2 && s[0] == '/' && s[1] == '/');
    }
  }

  /** Collapsing is idempotent. */
  lemma CollapseIdempotent(s: string)
    ensures CollapseSlashes(CollapseSlashes(s)) == CollapseSlashes(s)
  {
    CollapseNoDoubleSlash(s);
    CollapseIdentity(CollapseSlashes(s));
  }

  /** Collapsing only drops slashes: the result is never longer, and the
      characters other than `/` survive in order. */
  function NonSlash(s: string): string {
    if |s| == 0 then "" else (if s[0] == '/' then "" else [s[0]]) + NonSlash(s[1..])
  }

  lemma {:induction false} CollapseKeepsNonSlash(s: string)
    ensures NonSlash(CollapseSlashes(s)) == NonSlash(s)
    ensures |CollapseSlashes(s)| <= |s|
  {
    if |s| > 0 {
      CollapseKeepsNonSlash(s[1..]);
      if !(|s| >= 2 && s[0] == '/' && s[1] == '/') {
        var rest := CollapseSlashes(s[1..]);
        assert ([s[0]] + rest)[1..] == rest;
      }
    }
  }

  /** `s` without its trailing run of `/`: what is left does not end in `/`, and only slashes were cut. */
  function TrimTrailingSlashes(s: string): (t: string)
    ensures t == "" || t[|t| - 1] != '/'
    ensures |t| <= |s| && s[..|t|] == t
    ensures forall i :: |t| <= i < |s| ==> s[i] == '/'
  {
    if |s| > 0 && s[|s| - 1] == '/' then TrimTrailingSlashes(s[..|s| - 1]) else s
  }

  /** Collapsing works piecewise across a boundary that is not inside a run of slashes. */
  lemma {:induction false} CollapseAppend(a: string, b: string)
    requires a == "" || a[|a| - 1] != '/'
    ensures CollapseSlashes(a + b) == CollapseSlashes(a) + CollapseSlashes(b)
  {
    if a == "" {
      assert a + b == b;
    } else if |a| == 1 {
      assert (a + b)[1..] == b;
      assert CollapseSlashes(a) == [a[0]] + CollapseSlashes(a[1..]);
    } else {
      assert (a + b)[0] == a[0] && (a + b)[1] == a[1];
      assert (a + b)[1..] == a[1..] + b;
      CollapseAppend(a[1..], b);
      if !(a[0] == '/' && a[1] == '/') {
        assert CollapseSlashes(a + b) == [a[0]] + (CollapseSlashes(a[1..]) + CollapseSlashes(b));
      }
    }
  }

  /** A run of two slashes collapses like a single one. */
  lemma {:induction false} CollapseDoubleSlash(x: string, y: string)
    ensures CollapseSlashes(x + "//" + y) == CollapseSlashes(x + "/" + y)
  {
    var s, t := x + "//" + y, x + "/" + y;
    if x == "" {
      assert s == "//" + y && t == "/" + y;
      assert s[1..] == t;
    } else {
      assert s[0] == t[0] == x[0] && s[1] == t[1];
      assert s[1..] == x[1..] + "//" + y;
      assert t[1..] == x[1..] + "/" + y;
      CollapseDoubleSlash(x[1..], y);
    }
  }

  /** Slashes at the end of `base` merge into a run that `rest` starts. */
  lemma {:induction false} CollapseTrailing(base: string, rest: string)
    requires |rest| > 0 && rest[0] == '/'
    ensures CollapseSlashes(base + rest) == CollapseSlashes(TrimTrailingSlashes(base) + rest)
    decreases |base|
  {
    if |base| > 0 && base[|base| - 1] == '/' {
      var init := base[..|base| - 1];
      assert base + rest == init + "//" + rest[1..];
      assert init + "/" + rest[1..] == init + rest;
      CollapseDoubleSlash(init, rest[1..]);
      CollapseTrailing(init, rest);
    }
  }

  /** Joining with `/` and collapsing keeps exactly one `/` between the collapsed parts: the
      base's trailing slashes merge into the joining one. */
  lemma CollapseJoin(a: string, b: string)
    requires b == "" || b[0] != '/'
    ensures CollapseSlashes(a + "/" + b) == CollapseSlashes(TrimTrailingSlashes(a)) + "/" + CollapseSlashes(b)
  {
    var stem, tail := TrimTrailingSlashes(a), "/" + b;
    assert CollapseSlashes(a + "/" + b) == CollapseSlashes(stem + tail) by {
      assert a + "/" + b == a + tail;
      CollapseTrailing(a, tail);
    }
    assert CollapseSlashes(stem + tail) == CollapseSlashes(stem) + CollapseSlashes(tail) by {
      CollapseAppend(stem, tail);
    }
    assert CollapseSlashes(tail) == "/" + CollapseSlashes(b) by {
      CollapseLeadingSlash(b);
    }
    var left, right := CollapseSlashes(stem), CollapseSlashes(b);
    assert left + ("/" + right) == left + "/" + right;
  }

  lemma CollapseLeadingSlash(b: string)
    requires b == "" || b[0] != '/'
    ensures CollapseSlashes("/" + b) == "/" + CollapseSlashes(b)
  {
    var s := "/" + b;
    assert s[1..] == b;
    assert !(|s| >= 2 && s[0] == '/' && s[1] == '/');
  }
}
