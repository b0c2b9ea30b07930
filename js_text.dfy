/** The JavaScript string built-ins that the store's `correct` predicate is made of:
    `String.prototype.trim`, `replace(/\W+/g, "")` and `toLowerCase`, as the
    ECMAScript language specification defines them. */
module JsText {

  /** The WhiteSpace and LineTerminator code points of ECMAScript: what `trim` removes. */
  predicate IsWhitespace(c: char)
  {
    var n := c as int;
    n == 0x09 || n == 0x0A || n == 0x0B || n == 0x0C || n == 0x0D || n == 0x20 || n == 0xA0
    || n == 0x1680 || (0x2000 <= n <= 0x200A) || n == 0x2028 || n == 0x2029 || n == 0x202F
    || n == 0x205F || n == 0x3000 || n == 0xFEFF
  }

  /** The regular-expression class `\w` without the `u` and `i` flags: `[A-Za-z0-9_]`. */
  predicate IsWordChar(c: char)
  {
    ('A' <= c <= 'Z') || ('a' <= c <= 'z') || ('0' <= c <= '9') || c == '_'
  }

  predicate AllWhitespace(s: string)
  {
    forall i :: 0 <= i < |s| ==> IsWhitespace(s[i])
  }

  /** Every character of `s` from index `lo` up to, not including, `hi` is whitespace. */
  predicate WhitespaceBetween(s: string, lo: int, hi: int)
  {
    forall i :: lo <= i < hi && 0 <= i < |s| ==> IsWhitespace(s[i])
  }

  predicate AllWordChars(s: string)
  {
    forall i :: 0 <= i < |s| ==> IsWordChar(s[i])
  }

  /** Neither end of `s` is whitespace (vacuously so for the empty string). */
  predicate Tight(s: string)
  {
    s == [] || (!IsWhitespace(s[0]) && !IsWhitespace(s[|s| - 1]))
  }

  /** Where the whitespace that starts at `from` ends: the first index at or after
      `from` that holds no whitespace, or `|s|`. */
  function SkipWhitespace(s: string, from: nat): (k: nat)
    requires from <= |s|
    ensures from <= k <= |s| && WhitespaceBetween(s, from, k)
    ensures k < |s| ==> !IsWhitespace(s[k])
    decreases |s| - from
  {
    if from < |s| && IsWhitespace(s[from]) then SkipWhitespace(s, from + 1) else from
  }

  /** Where the whitespace that ends at `hi` starts, scanning back no further than
      `lo`: the least index from which everything up to `hi` is whitespace. */
  function SkipWhitespaceBack(s: string, lo: nat, hi: nat): (k: nat)
    requires lo <= hi <= |s|
    ensures lo <= k <= hi && WhitespaceBetween(s, k, hi)
    ensures lo < k ==> !IsWhitespace(s[k - 1])
    decreases hi
  {
    if lo < hi && IsWhitespace(s[hi - 1]) then SkipWhitespaceBack(s, lo, hi - 1) else hi
  }

  /** `s.trim()`: the part of `s` between the whitespace at its start and the
      whitespace at its end. It has no whitespace at either end, and it is empty
      exactly when `s` is all whitespace. */
  function Trim(s: string): (r: string)
    ensures Tight(r)
    ensures r == [] <==> AllWhitespace(s)
  {
    var i := SkipWhitespace(s, 0);
    var j := SkipWhitespaceBack(s, i, |s|);
    assert i == j ==> AllWhitespace(s) by {
      if i == j {
        forall k | 0 <= k < |s| ensures IsWhitespace(s[k]) {
          assert k < i || j <= k;
        }
      }
    }
    assert i < j ==> s[i..j][0] == s[i] && s[i..j][j - i - 1] == s[j - 1];
    s[i..j]
  }

  /** The scan from the front stops at the first non-whitespace index, whichever
      index that is. */
  lemma {:induction false} SkipWhitespaceAt(s: string, from: nat, k: nat)
    requires from <= k <= |s| && WhitespaceBetween(s, from, k)
    requires k < |s| ==> !IsWhitespace(s[k])
    ensures SkipWhitespace(s, from) == k
    decreases k - from
  {
    if from < k {
      SkipWhitespaceAt(s, from + 1, k);
    }
  }

  /** The scan from the back stops just after the last non-whitespace index that is
      not below `lo`, whichever index that is. */
  lemma {:induction false} SkipWhitespaceBackAt(s: string, lo: nat, hi: nat, k: nat)
    requires lo <= k <= hi <= |s| && WhitespaceBetween(s, k, hi)
    requires lo < k ==> !IsWhitespace(s[k - 1])
    ensures SkipWhitespaceBack(s, lo, hi) == k
    decreases hi
  {
    if k < hi {
      SkipWhitespaceBackAt(s, lo, hi - 1, k);
    }
  }

  /** Whitespace joined to whitespace is whitespace. */
  lemma WhitespaceConcat(a: string, b: string)
    requires AllWhitespace(a) && AllWhitespace(b)
    ensures AllWhitespace(a + b)
  {
    forall k | 0 <= k < |a + b| ensures IsWhitespace((a + b)[k]) {
      if k >= |a| {
        assert (a + b)[k] == b[k - |a|];
      }
    }
  }

  /** `Trim` is the only way to split a string into whitespace, a middle with no
      whitespace at its ends, and whitespace: whatever `p` and `q` pad `m` with,
      `Trim` gives back `m`. */
  lemma {:induction false} TrimOfPadded(p: string, m: string, q: string)
    requires AllWhitespace(p) && AllWhitespace(q) && Tight(m)
    ensures Trim(p + m + q) == m
  {
    var s := p + m + q;
    if m == [] {
      assert s == p + q;
      WhitespaceConcat(p, q);
    } else {
      var i, j := |p|, |p| + |m|;
      assert s[i] == m[0] && s[j - 1] == m[|m| - 1];
      assert WhitespaceBetween(s, 0, i) by {
        forall k | 0 <= k < i ensures IsWhitespace(s[k]) {
          assert s[k] == p[k];
        }
      }
      assert WhitespaceBetween(s, j, |s|) by {
        forall k | j <= k < |s| ensures IsWhitespace(s[k]) {
          assert s[k] == q[k - j];
        }
      }
      SkipWhitespaceAt(s, 0, i);
      SkipWhitespaceBackAt(s, i, |s|, j);
      assert s[i..j] == m;
    }
  }

  /** The whitespace that `Trim` takes off either end of `s`. */
  lemma {:induction false} TrimSplit(s: string) returns (pre: string, post: string)
    ensures s == pre + Trim(s) + post
    ensures AllWhitespace(pre) && AllWhitespace(post)
  {
    var i := SkipWhitespace(s, 0);
    var j := SkipWhitespaceBack(s, i, |s|);
    pre, post := s[..i], s[j..];
    assert Trim(s) == s[i..j];
    assert s == pre + s[i..j] + post;
    assert AllWhitespace(pre) by {
      forall k | 0 <= k < |pre| ensures IsWhitespace(pre[k]) {
        assert pre[k] == s[k];
      }
    }
    assert AllWhitespace(post) by {
      forall k | 0 <= k < |post| ensures IsWhitespace(post[k]) {
        assert post[k] == s[j + k];
      }
    }
  }

  /** Extra whitespace around a string does not change what it trims to. */
  lemma {:induction false} TrimIgnoresPadding(p: string, s: string, q: string)
    requires AllWhitespace(p) && AllWhitespace(q)
    ensures Trim(p + s + q) == Trim(s)
  {
    var pre, post := TrimSplit(s);
    var m := Trim(s);
    var a, b := p + pre, post + q;
    WhitespaceConcat(p, pre);
    WhitespaceConcat(post, q);
    TrimOfPadded(a, m, b);
    Regroup(p, pre, m, post, q);
  }

  /** Padding a three-part string is padding its outer parts. */
  lemma Regroup(p: string, pre: string, m: string, post: string, q: string)
    ensures p + (pre + m + post) + q == (p + pre) + m + (post + q)
  {
  }

  /** Trimming twice is trimming once. */
  lemma {:induction false} TrimIdempotent(s: string)
    ensures Trim(Trim(s)) == Trim(s)
  {
    TrimOfPadded([], Trim(s), []);
    assert [] + Trim(s) + [] == Trim(s);
  }

  /** `s.replace(/\W+/g, "")`: removing every maximal run of non-word characters
      removes every non-word character, so what is left is made of word characters. */
  function StripNonWord(s: string): (r: string)
    ensures AllWordChars(r)
    ensures |r| <= |s|
  {
    if s == [] then [] else (if IsWordChar(s[0]) then [s[0]] else []) + StripNonWord(s[1..])
  }

  /** Stripping works character by character: it distributes over concatenation. */
  lemma {:induction false} StripConcat(a: string, b: string)
    ensures StripNonWord(a + b) == StripNonWord(a) + StripNonWord(b)
  {
    if a == [] {
      assert a + b == b;
    } else {
      assert (a + b)[0] == a[0];
      assert (a + b)[1..] == a[1..] + b;
      StripConcat(a[1..], b);
    }
  }

  /** A string of word characters survives the strip unchanged. */
  lemma {:induction false} StripKeepsWordChars(s: string)
    requires AllWordChars(s)
    ensures StripNonWord(s) == s
  {
    if s != [] {
      StripKeepsWordChars(s[1..]);
    }
  }

  /** A string of whitespace strips to nothing. */
  lemma {:induction false} StripDropsWhitespace(s: string)
    requires AllWhitespace(s)
    ensures StripNonWord(s) == []
  {
    if s != [] {
      StripDropsWhitespace(s[1..]);
    }
  }

  /** Whitespace on either side of a string strips away. */
  lemma {:induction false} StripOfPadded(pre: string, r: string, post: string)
    requires AllWhitespace(pre) && AllWhitespace(post)
    ensures StripNonWord(pre + r + post) == StripNonWord(r)
  {
    StripDropsWhitespace(pre);
    StripDropsWhitespace(post);
    StripConcat(pre + r, post);
    StripConcat(pre, r);
    assert StripNonWord(pre + r + post) == [] + StripNonWord(r) + [];
  }

  /** The `trim()` before the strip in the `correct` predicate changes nothing:
      whitespace is never a word character. */
  lemma {:induction false} StripIgnoresTrim(s: string)
    ensures StripNonWord(Trim(s)) == StripNonWord(s)
  {
    var pre, post := TrimSplit(s);
    StripOfPadded(pre, Trim(s), post);
  }

  /** The lower-case form of one word character: only `A`-`Z` change. */
  function ToLowerChar(c: char): (d: char)
    requires IsWordChar(c)
    ensures IsWordChar(d) && !('A' <= d <= 'Z')
    ensures 'A' <= c <= 'Z' ==> d as int == c as int + 32
    ensures !('A' <= c <= 'Z') ==> d == c
  {
    if 'A' <= c <= 'Z' then (c as int + 32) as char else c
  }

  /** `s.toLowerCase()` on a string of word characters, the only strings the store
      lower-cases; on them Unicode case mapping only touches `A`-`Z`. */
  function ToLowerCase(s: string): (r: string)
    requires AllWordChars(s)
    ensures |r| == |s| && AllWordChars(r)
    ensures forall i :: 0 <= i < |s| ==> r[i] == ToLowerChar(s[i])
  {
    if s == [] then [] else [ToLowerChar(s[0])] + ToLowerCase(s[1..])
  }
}
