/** Character-level helpers shared by the components: the ECMAScript notion of
    white space (used by String.prototype.trim and by the regular-expression
    class \s), trimming, and the `replace(/\s+/g, '_')` rewrite used for the
    download file name. */
module Text {

  /** ECMAScript WhiteSpace and LineTerminator code points: exactly the set
      that `trim()` strips and that `\s` matches. */
  predicate IsSpace(c: char) {
    || c == '\t' || c == '\n' || c == '\U{000B}' || c == '\U{000C}' || c == '\r'
    || c == ' ' || c == '\U{00A0}' || c == '\U{1680}'
    || ('\U{2000}' <= c <= '\U{200A}')
    || c == '\U{2028}' || c == '\U{2029}' || c == '\U{202F}' || c == '\U{205F}'
    || c == '\U{3000}' || c == '\U{FEFF}'
  }

  /** Every character of `s` is white space (the empty string included). */
  predicate Blank(s: string) {
    forall i :: 0 <= i < |s| ==> IsSpace(s[i])
  }

  /** No character of `s` is white space. */
  predicate Spaceless(s: string) {
    forall i :: 0 <= i < |s| ==> !IsSpace(s[i])
  }

  /** `s` with its leading white space removed. */
  function TrimStart(s: string): (r: string)
    decreases |s|
    ensures |r| <= |s|
    ensures s != [] && IsSpace(s[0]) ==> |r| < |s|
    ensures r == [] || !IsSpace(r[0])
  {
    if s == [] || !IsSpace(s[0]) then s else TrimStart(s[1..])
  }

  /** What `TrimStart` removes is a blank prefix: the result is the rest of
      `s`. */
  lemma {:induction false} TrimStartSplits(s: string)
    ensures s == s[..|s| - |TrimStart(s)|] + TrimStart(s)
    ensures Blank(s[..|s| - |TrimStart(s)|])
    decreases |s|
  {
    if s != [] && IsSpace(s[0]) {
      var r := TrimStart(s[1..]);
      TrimStartSplits(s[1..]);
      assert s[..|s| - |r|] == [s[0]] + s[1..][..|s| - 1 - |r|];
    }
  }

  /** `s` with its trailing white space removed. */
  function TrimEnd(s: string): (r: string)
    decreases |s|
    ensures |r| <= |s| && r == s[..|r|]
    ensures Blank(s[|r|..])
    ensures r == [] || !IsSpace(r[|r| - 1])
  {
    if s == [] || !IsSpace(s[|s| - 1]) then s
    else
      var t := s[..|s| - 1];
      var r := TrimEnd(t);
      assert s[|r|..] == t[|r|..] + [s[|s| - 1]];
      assert t[..|r|] == s[..|r|];
      r
  }

  /** `String.prototype.trim`: the result is no longer than `s`, and it
      neither starts nor ends with white space. */
  function Trim(s: string): (r: string)
    ensures |r| <= |s|
    ensures r == [] || (!IsSpace(r[0]) && !IsSpace(r[|r| - 1]))
  {
    var t := TrimStart(s);
    var r := TrimEnd(t);
    assert r != [] ==> r[0] == t[0];
    r
  }

  /** `s.trim() !== ""` holds exactly when `s` has a character that is not
      white space. */
  lemma TrimEmptyIffBlank(s: string)
    ensures Trim(s) == [] <==> Blank(s)
  {
    var t := TrimStart(s);
    var r := Trim(s);
    TrimStartSplits(s);
    if r == [] {
      assert Blank(t[|r|..]);
      assert t[|r|..] == t;
      assert t == [];
      assert s[..|s| - |t|] == s;
    } else {
      assert !IsSpace(r[|r| - 1]);
      assert r[|r| - 1] == t[|r| - 1];
      assert t[|r| - 1] == s[|s| - |t| + |r| - 1];
      assert !IsSpace(s[|s| - |t| + |r| - 1]);
    }
  }

  /** Stripping the trailing white space of `p + q` leaves `p` alone when `q`
      still holds a character that is not white space. */
  lemma {:induction false} TrimEndKeepsPrefix(p: string, q: string)
    requires !Blank(q)
    ensures TrimEnd(p + q) == p + TrimEnd(q)
    decreases |q|
  {
    assert q != [];
    var last := |q| - 1;
    assert (p + q)[|p + q| - 1] == q[last];
    if IsSpace(q[last]) {
      var q' := q[..last];
      assert (p + q)[..|p + q| - 1] == p + q';
      if Blank(q') {
        forall i | 0 <= i < |q| ensures IsSpace(q[i]) {
          if i < last { assert q[i] == q'[i]; }
        }
        assert false;
      }
      TrimEndKeepsPrefix(p, q');
    }
  }

  /** A blank tail makes no difference to `TrimEnd`. */
  lemma {:induction false} TrimEndBlankSuffix(x: string, w: string)
    requires Blank(w)
    ensures TrimEnd(x + w) == TrimEnd(x)
    decreases |w|
  {
    if w == [] {
      assert x + w == x;
    } else {
      var n := |w| - 1;
      assert (x + w)[|x + w| - 1] == w[n];
      assert (x + w)[..|x + w| - 1] == x + w[..n];
      assert Blank(w[..n]) by {
        forall i | 0 <= i < n ensures IsSpace(w[..n][i]) {
          assert w[..n][i] == w[i];
        }
      }
      TrimEndBlankSuffix(x, w[..n]);
    }
  }

  /** Stripping the leading white space of `x + y` leaves `y` alone when `x`
      ends in a character that is not white space. */
  lemma {:induction false} TrimStartAppend(x: string, y: string)
    requires x != [] && !IsSpace(x[|x| - 1])
    ensures TrimStart(x + y) == TrimStart(x) + y
    decreases |x|
  {
    assert (x + y)[0] == x[0];
    if IsSpace(x[0]) {
      assert |x| > 1;
      assert (x + y)[1..] == x[1..] + y;
      TrimStartAppend(x[1..], y);
    }
  }

  /** Stripping the leading white space of a string that ends in a character
      that is not white space keeps that last character. */
  lemma {:induction false} TrimStartKeepsLast(x: string)
    requires x != [] && !IsSpace(x[|x| - 1])
    ensures TrimStart(x) != [] && TrimStart(x)[|TrimStart(x)| - 1] == x[|x| - 1]
    decreases |x|
  {
    if IsSpace(x[0]) {
      TrimStartKeepsLast(x[1..]);
    }
  }

  /** Stripping the leading white space of a non-empty blank run in front of
      `b` yields `b` when `b` does not begin with white space. */
  lemma {:induction false} TrimStartOfRun(w: string, b: string)
    requires Blank(w)
    requires b == [] || !IsSpace(b[0])
    ensures TrimStart(w + b) == b
    decreases |w|
  {
    if w == [] {
      assert w + b == b;
    } else {
      assert (w + b)[0] == w[0];
      assert (w + b)[1..] == w[1..] + b;
      TrimStartOfRun(w[1..], b);
    }
  }

  /** `s.replace(/\s+/g, '_')`: every maximal run of white space becomes a
      single underscore. */
  function UnderscoreSpaces(s: string): (r: string)
    decreases |s|
  {
    if s == [] then []
    else if IsSpace(s[0]) then
      var rest := TrimStart(s[1..]);
      "_" + UnderscoreSpaces(rest)
    else [s[0]] + UnderscoreSpaces(s[1..])
  }

  /** The rewrite leaves no white space behind and never lengthens the
      string. */
  lemma {:induction false} UnderscoreSpacesSpaceless(s: string)
    ensures Spaceless(UnderscoreSpaces(s))
    ensures |UnderscoreSpaces(s)| <= |s|
    decreases |s|
  {
    if s == [] {
    } else if IsSpace(s[0]) {
      UnderscoreSpacesSpaceless(TrimStart(s[1..]));
    } else {
      UnderscoreSpacesSpaceless(s[1..]);
    }
  }

  /** A string without white space is left unchanged. */
  lemma {:induction false} UnderscoreSpacesIdentity(s: string)
    requires Spaceless(s)
    ensures UnderscoreSpaces(s) == s
    decreases |s|
  {
    if s != [] {
      assert !IsSpace(s[0]);
      assert Spaceless(s[1..]) by {
        forall i | 0 <= i < |s[1..]| ensures !IsSpace(s[1..][i]) {
          assert s[1..][i] == s[i + 1];
        }
      }
      UnderscoreSpacesIdentity(s[1..]);
    }
  }

  /** Applying the rewrite twice is the same as applying it once. */
  lemma UnderscoreSpacesIdempotent(s: string)
    ensures UnderscoreSpaces(UnderscoreSpaces(s)) == UnderscoreSpaces(s)
  {
    UnderscoreSpacesSpaceless(s);
    UnderscoreSpacesIdentity(UnderscoreSpaces(s));
  }

  /** The rewrite distributes over a cut made right after a character that is
      not white space. */
  lemma {:induction false} UnderscoreSpacesAppend(a: string, t: string)
    requires a == [] || !IsSpace(a[|a| - 1])
    ensures UnderscoreSpaces(a + t) == UnderscoreSpaces(a) + UnderscoreSpaces(t)
    decreases |a|
  {
    if a == [] {
      assert a + t == t;
    } else if IsSpace(a[0]) {
      var rest := TrimStart(a[1..]);
      assert TrimStart((a + t)[1..]) == rest + t by {
        assert (a + t)[1..] == a[1..] + t;
        TrimStartAppend(a[1..], t);
      }
      assert rest != [] && !IsSpace(rest[|rest| - 1]) by {
        TrimStartKeepsLast(a[1..]);
      }
      UnderscoreSpacesAppend(rest, t);
      assert (a + t)[0] == a[0];
    } else {
      assert (a + t)[0] == a[0];
      assert (a + t)[1..] == a[1..] + t;
      UnderscoreSpacesAppend(a[1..], t);
    }
  }

  /** A non-empty run of white space in front of `b` becomes one
      underscore. */
  lemma UnderscoreSpacesLeadingRun(w: string, b: string)
    requires w != [] && Blank(w)
    requires b == [] || !IsSpace(b[0])
    ensures UnderscoreSpaces(w + b) == "_" + UnderscoreSpaces(b)
  {
    assert (w + b)[1..] == w[1..] + b;
    assert Blank(w[1..]) by {
      forall i | 0 <= i < |w[1..]| ensures IsSpace(w[1..][i]) {
        assert w[1..][i] == w[i + 1];
      }
    }
    TrimStartOfRun(w[1..], b);
    assert (w + b)[0] == w[0];
  }

  /** The defining law of `replace(/\s+/g, '_')`: a maximal run `w` of white
      space between `a` and `b` is replaced by exactly one underscore. */
  lemma UnderscoreSpacesRun(a: string, w: string, b: string)
    requires a == [] || !IsSpace(a[|a| - 1])
    requires w != [] && Blank(w)
    requires b == [] || !IsSpace(b[0])
    ensures UnderscoreSpaces(a + w + b) == UnderscoreSpaces(a) + "_" + UnderscoreSpaces(b)
  {
    calc {
      UnderscoreSpaces(a + w + b);
      { assert a + w + b == a + (w + b); }
      UnderscoreSpaces(a + (w + b));
      { UnderscoreSpacesAppend(a, w + b); }
      UnderscoreSpaces(a) + UnderscoreSpaces(w + b);
      { UnderscoreSpacesLeadingRun(w, b); }
      UnderscoreSpaces(a) + ("_" + UnderscoreSpaces(b));
    }
  }
}
