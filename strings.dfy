/** The JavaScript string operations the login route and the token middleware use:
    `split`, `trim` and `toLowerCase`. */
module Strings {

  /** The characters `String.prototype.trim` strips: ECMAScript WhiteSpace and
      LineTerminator. */
  predicate IsSpace(c: char) {
    c == ' ' || c == '\t' || c == '\n' || c == '\r' || c == '\U{000B}' || c == '\U{000C}'
    || c == '\U{00A0}' || c == '\U{1680}' || ('\U{2000}' <= c <= '\U{200A}')
    || c == '\U{2028}' || c == '\U{2029}' || c == '\U{202F}' || c == '\U{205F}'
    || c == '\U{3000}' || c == '\U{FEFF}'
  }

  predicate AllSpace(s: string) {
    forall i :: 0 <= i < |s| ==> IsSpace(s[i])
  }

  /** Drops leading white space: the result is the longest suffix of `s` that does
      not start with white space, and all that was dropped is white space. */
  function TrimStart(s: string): (r: string)
    ensures |r| <= |s| && r == s[|s| - |r|..]
    ensures AllSpace(s[..|s| - |r|])
    ensures r == [] || !IsSpace(r[0])
  {
    if s != [] && IsSpace(s[0]) then TrimStart(s[1..]) else s
  }

  /** Drops trailing white space, symmetrically to `TrimStart`. */
  function TrimEnd(s: string): (r: string)
    ensures |r| <= |s| && r == s[..|r|]
    ensures AllSpace(s[|r|..])
    ensures r == [] || !IsSpace(r[|r| - 1])
  {
    if s != [] && IsSpace(s[|s| - 1]) then TrimEnd(s[..|s| - 1]) else s
  }

  function Trim(s: string): string {
    TrimEnd(TrimStart(s))
  }

  /** `toLowerCase` on the ASCII letters. */
  function LowerChar(c: char): char {
    if 'A' <= c <= 'Z' then (c as int + 32) as char else c
  }

  function ToLower(s: string): (r: string)
    ensures |r| == |s|
  {
    seq(|s|, i requires 0 <= i < |s| => LowerChar(s[i]))
  }

  /** `s.trim().toLowerCase()`: the normal form emails are compared in. */
  function Normalize(s: string): string {
    ToLower(Trim(s))
  }

  /** `Trim` never leaves white space at either end, whatever it is given. */
  lemma TrimTrims(s: string)
    ensures var t := Trim(s); t == [] || (!IsSpace(t[0]) && !IsSpace(t[|t| - 1]))
  {
    var a := TrimStart(s);
    var t := TrimEnd(a);
    if t != [] {
      assert t[0] == a[0];
    }
  }

  /** Surrounding white space and ASCII case do not change the normal form. */
  lemma NormalizeIgnoresSpaceAndCase(s: string, pre: string, post: string)
    requires AllSpace(pre) && AllSpace(post)
    ensures Normalize(pre + s + post) == Normalize(s)
    ensures Normalize(ToLower(s)) == Normalize(s)
  {
    TrimIgnoresSpace(s, pre, post);
    TrimLowerCommute(s);
    LowerTwice(Trim(s));
  }

  /** Trimming removes any white space added around a string. */
  lemma TrimIgnoresSpace(s: string, pre: string, post: string)
    requires AllSpace(pre) && AllSpace(post)
    ensures Trim(pre + s + post) == Trim(s)
  {
    assert TrimStart(pre + s + post) == TrimStart(s + post) by {
      assert pre + s + post == pre + (s + post);
      TrimStartSkipsSpace(pre, s + post);
    }
    if AllSpace(s) {
      assert AllSpace(s + post);
      TrimStartAllSpace(s + post);
      TrimStartAllSpace(s);
    } else {
      TrimStartAppend(s, post);
      TrimEndSkipsSpace(TrimStart(s), post);
    }
  }

  lemma {:induction false} TrimStartSkipsSpace(pre: string, s: string)
    requires AllSpace(pre)
    ensures TrimStart(pre + s) == TrimStart(s)
    decreases |pre|
  {
    if pre != [] {
      var t := pre + s;
      assert t[0] == pre[0];
      assert t[1..] == pre[1..] + s;
      TrimStartSkipsSpace(pre[1..], s);
    } else {
      assert pre + s == s;
    }
  }

  lemma {:induction false} TrimStartAppend(s: string, post: string)
    requires AllSpace(post) && !AllSpace(s)
    ensures TrimStart(s + post) == TrimStart(s) + post
    decreases |s|
  {
    var t := s + post;
    assert t[0] == s[0];
    if IsSpace(s[0]) {
      assert t[1..] == s[1..] + post;
      assert !AllSpace(s[1..]) by {
        var i :| 0 <= i < |s| && !IsSpace(s[i]);
        assert s[1..][i - 1] == s[i];
      }
      TrimStartAppend(s[1..], post);
    }
  }

  lemma {:induction false} TrimStartAllSpace(s: string)
    requires AllSpace(s)
    ensures TrimStart(s) == []
    decreases |s|
  {
    if s != [] {
      assert AllSpace(s[1..]) by {
        forall i | 0 <= i < |s| - 1 ensures IsSpace(s[1..][i]) {
          assert s[1..][i] == s[i + 1];
        }
      }
      TrimStartAllSpace(s[1..]);
    }
  }

  lemma {:induction false} TrimEndSkipsSpace(s: string, post: string)
    requires AllSpace(post)
    ensures TrimEnd(s + post) == TrimEnd(s)
    decreases |post|
  {
    if post == [] {
      assert s + post == s;
    } else {
      var front := post[..|post| - 1];
      var t := s + front;
      assert s + post == t + [post[|post| - 1]];
      assert (t + [post[|post| - 1]])[..|t|] == t;
      assert AllSpace(front) by {
        forall i | 0 <= i < |front| ensures IsSpace(front[i]) {
          assert front[i] == post[i];
        }
      }
      TrimEndSkipsSpace(s, front);
    }
  }

  lemma {:induction false} TrimLowerCommute(s: string)
    ensures Trim(ToLower(s)) == ToLower(Trim(s))
  {
    TrimStartLower(s);
    TrimEndLower(TrimStart(s));
  }

  lemma LowerCharSpace(c: char)
    ensures IsSpace(LowerChar(c)) <==> IsSpace(c)
  {
  }

  lemma {:induction false} TrimStartLower(s: string)
    ensures TrimStart(ToLower(s)) == ToLower(TrimStart(s))
    decreases |s|
  {
    if s != [] {
      var l := ToLower(s);
      assert l[0] == LowerChar(s[0]);
      LowerCharSpace(s[0]);
      if IsSpace(s[0]) {
        assert l[1..] == ToLower(s[1..]);
        TrimStartLower(s[1..]);
      }
    }
  }

  lemma {:induction false} TrimEndLower(s: string)
    ensures TrimEnd(ToLower(s)) == ToLower(TrimEnd(s))
    decreases |s|
  {
    if s != [] {
      var l := ToLower(s);
      assert l[|s| - 1] == LowerChar(s[|s| - 1]);
      LowerCharSpace(s[|s| - 1]);
      if IsSpace(s[|s| - 1]) {
        assert l[..|s| - 1] == ToLower(s[..|s| - 1]);
        TrimEndLower(s[..|s| - 1]);
      }
    }
  }

  lemma LowerTwice(s: string)
    ensures ToLower(ToLower(s)) == ToLower(s)
  {
  }

  /** `s.split(sep)`: the pieces between separators, in order; an empty string gives
      one empty piece. */
  function Split(s: string, sep: char): (r: seq<string>)
    ensures |r| >= 1
    ensures forall i :: 0 <= i < |r| ==> sep !in r[i]
    decreases |s|
  {
    if s == [] then [""]
    else
      var rest := Split(s[1..], sep);
      if s[0] == sep then [""] + rest
      else [[s[0]] + rest[0]] + rest[1..]
  }

  /** `pieces.join(sep)`. */
  function Join(pieces: seq<string>, sep: char): string
    requires |pieces| >= 1
  {
    if |pieces| == 1 then pieces[0] else pieces[0] + [sep] + Join(pieces[1..], sep)
  }

  /** Splitting loses nothing: joining the pieces back gives the original string. */
  lemma {:induction false} JoinSplit(s: string, sep: char)
    ensures Join(Split(s, sep), sep) == s
    decreases |s|
  {
    if s != [] {
      var rest := Split(s[1..], sep);
      JoinSplit(s[1..], sep);
      if s[0] == sep {
        assert Split(s, sep)[1..] == rest;
      } else {
        var r := Split(s, sep);
        assert r[1..] == rest[1..];
        if |rest| == 1 {
        } else {
          assert Join(rest, sep) == rest[0] + [sep] + Join(rest[1..], sep);
        }
      }
    }
  }

  /** A first piece free of the separator splits off on its own. */
  lemma {:induction false} SplitAfterPiece(p: string, sep: char, t: string)
    requires sep !in p
    ensures Split(p + [sep] + t, sep) == [p] + Split(t, sep)
    decreases |p|
  {
    var s := p + [sep] + t;
    if p == [] {
      assert s == [sep] + t;
      assert s[1..] == t;
    } else {
      assert s[0] == p[0];
      assert s[1..] == p[1..] + [sep] + t;
      SplitAfterPiece(p[1..], sep, t);
      assert [p[0]] + p[1..] == p;
    }
  }

  /** Splitting text with no separator gives that text as the only piece; in
      particular the empty string gives `[""]`. */
  lemma {:induction false} SplitNoSeparator(s: string, sep: char)
    requires sep !in s
    ensures Split(s, sep) == [s]
    decreases |s|
  {
    if s != [] {
      SplitNoSeparator(s[1..], sep);
      assert [s[0]] + s[1..] == s;
    }
  }

  /** Joining separator-free pieces and splitting again gives the pieces back. */
  lemma {:induction false} SplitJoin(pieces: seq<string>, sep: char)
    requires |pieces| >= 1 && forall i :: 0 <= i < |pieces| ==> sep !in pieces[i]
    ensures Split(Join(pieces, sep), sep) == pieces
    decreases |pieces|
  {
    if |pieces| == 1 {
      SplitNoSeparator(pieces[0], sep);
    } else {
      SplitJoin(pieces[1..], sep);
      SplitAfterPiece(pieces[0], sep, Join(pieces[1..], sep));
      assert [pieces[0]] + pieces[1..] == pieces;
    }
  }

  /** Trimming twice is trimming once. */
  lemma TrimIdempotent(s: string)
    ensures Trim(Trim(s)) == Trim(s)
  {
    var u := Trim(s);
    TrimTrims(s);
    assert TrimStart(u) == u;
    assert TrimEnd(u) == u;
  }

  /** A normalised string is its own normal form. */
  lemma NormalizeIdempotent(s: string)
    ensures Normalize(Normalize(s)) == Normalize(s)
  {
    TrimLowerCommute(Trim(s));
    LowerTwice(Trim(Trim(s)));
    TrimIdempotent(s);
  }

  /** White space alone normalises to the empty string. */
  lemma NormalizeAllSpace(s: string)
    requires AllSpace(s)
    ensures Normalize(s) == ""
  {
    TrimStartAllSpace(s);
    assert Trim(s) == TrimEnd([]);
  }
}
