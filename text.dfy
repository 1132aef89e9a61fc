/** String helpers the core relies on: lower-casing (`toLowerCase`) into ASCII,
    substring containment (an unanchored regular expression made only of
    literal alternatives), `split` on one character and the white space
    that `trim` removes. */
module Text {

  predicate IsUpper(c: char)
  {
    'A' <= c <= 'Z'
  }

  /** U+212A KELVIN SIGN, which `toLowerCase` maps to an ASCII `k`. */
  const KelvinSign: char := '\U{212A}'

  /** `toLowerCase` on the letters whose lower case is one ASCII
      character: `A` to `Z`, and the Kelvin sign. Every other character
      is left as it is. */
  function LowerChar(c: char): (r: char)
    ensures !IsUpper(r) && r != KelvinSign
    ensures IsUpper(c) ==> r as int == c as int + 32
    ensures c == KelvinSign ==> r == 'k'
    ensures !IsUpper(c) && c != KelvinSign ==> r == c
  {
    if IsUpper(c) then (c as int + 32) as char
    else if c == KelvinSign then 'k'
    else c
  }

  function Lower(s: string): (r: string)
    ensures |r| == |s|
    ensures forall i :: 0 <= i < |s| ==> r[i] == LowerChar(s[i])
  {
    if s == [] then [] else [LowerChar(s[0])] + Lower(s[1..])
  }

  lemma {:induction false} LowerIdempotent(s: string)
    ensures Lower(Lower(s)) == Lower(s)
  {
    if s != [] {
      LowerIdempotent(s[1..]);
      assert Lower(s)[1..] == Lower(s[1..]);
    }
  }

  /** Lower-casing works character by character, so it distributes over
      concatenation. */
  lemma LowerConcat(a: string, b: string)
    ensures Lower(a + b) == Lower(a) + Lower(b)
  {
    var r := Lower(a) + Lower(b);
    forall k | 0 <= k < |a + b|
      ensures r[k] == LowerChar((a + b)[k])
    {
      if k < |a| {
        assert (a + b)[k] == a[k];
      } else {
        assert (a + b)[k] == b[k - |a|];
      }
    }
    LowerPointwise(a + b, r);
  }

  /** A text that is `s` lower-cased character by character is `Lower(s)`. */
  lemma LowerPointwise(s: string, r: string)
    requires |r| == |s| && forall k :: 0 <= k < |s| ==> r[k] == LowerChar(s[k])
    ensures Lower(s) == r
  {
  }

  /** A lower-case word with one `k` written as the Kelvin sign lower-cases
      back to the word. */
  lemma KelvinSpelling(tag: string, j: int)
    requires Lower(tag) == tag && 0 <= j < |tag| && tag[j] == 'k'
    ensures Lower(tag[..j] + [KelvinSign] + tag[j + 1..]) == tag
  {
    var w := tag[..j] + [KelvinSign] + tag[j + 1..];
    forall k | 0 <= k < |w|
      ensures tag[k] == LowerChar(w[k])
    {
      if k != j {
        assert w[k] == tag[k];
        assert Lower(tag)[k] == LowerChar(tag[k]);
      }
    }
    LowerPointwise(w, tag);
  }

  /** `t` occurs somewhere in `s`. */
  predicate Contains(s: string, t: string)
    decreases |s|
  {
    |t| <= |s| && (s[..|t|] == t || Contains(s[1..], t))
  }

  /** `t` occurs in `s` at position `i`. */
  predicate OccursAt(s: string, t: string, i: int)
  {
    0 <= i <= |s| - |t| && s[i..i + |t|] == t
  }

  /** A text contains each of its middle parts. */
  lemma ContainsMiddle(a: string, m: string, b: string)
    ensures Contains(a + m + b, m)
  {
    assert (a + m + b)[|a|..|a| + |m|] == m;
    OccursContains(a + m + b, m, |a|);
  }

  /** Containment is occurrence at some position. */
  lemma ContainsAt(s: string, t: string)
    ensures Contains(s, t) <==> exists i :: OccursAt(s, t, i)
  {
    if Contains(s, t) {
      ContainsOccurs(s, t);
    }
    forall i | OccursAt(s, t, i)
      ensures Contains(s, t)
    {
      OccursContains(s, t, i);
    }
  }

  lemma {:induction false} ContainsOccurs(s: string, t: string)
    requires Contains(s, t)
    ensures exists i :: OccursAt(s, t, i)
    decreases |s|
  {
    if s[..|t|] == t {
      assert OccursAt(s, t, 0);
    } else {
      ContainsOccurs(s[1..], t);
      var i :| OccursAt(s[1..], t, i);
      assert s[i + 1..i + 1 + |t|] == s[1..][i..i + |t|];
      assert OccursAt(s, t, i + 1);
    }
  }

  lemma {:induction false} OccursContains(s: string, t: string, i: int)
    requires OccursAt(s, t, i)
    ensures Contains(s, t)
    decreases i
  {
    if i > 0 {
      assert s[1..][i - 1..i - 1 + |t|] == s[i..i + |t|];
      OccursContains(s[1..], t, i - 1);
    } else {
      assert s[..|t|] == t;
    }
  }

  /** Containing `t + u` implies containing `t`. */
  lemma {:induction false} ContainsPrefixOf(s: string, t: string, u: string)
    requires Contains(s, t + u)
    ensures Contains(s, t)
    decreases |s|
  {
    if s[..|t + u|] == t + u {
      assert s[..|t|] == (t + u)[..|t|] == t;
    } else {
      ContainsPrefixOf(s[1..], t, u);
    }
  }

  /** A text that contains a lower-case `t` still contains it once lower-cased. */
  lemma {:induction false} ContainsLower(s: string, t: string)
    requires Contains(s, t)
    requires Lower(t) == t
    ensures Contains(Lower(s), t)
    decreases |s|
  {
    if s[..|t|] == t {
      assert Lower(s)[..|t|] == Lower(s[..|t|]);
    } else {
      ContainsLower(s[1..], t);
      assert Lower(s)[1..] == Lower(s[1..]);
    }
  }

  /** Binary string order (SQLite's default collation, by code point):
      `a` is a prefix of `b` or is smaller at the first difference. */
  predicate LexLe(a: string, b: string)
    decreases |a|
  {
    a == [] || (b != [] && (a[0] < b[0] || (a[0] == b[0] && LexLe(a[1..], b[1..]))))
  }

  /** Any two strings are comparable. */
  lemma {:induction false} LexTotal(a: string, b: string)
    ensures LexLe(a, b) || LexLe(b, a)
    decreases |a|
  {
    if a != [] && b != [] && a[0] == b[0] {
      LexTotal(a[1..], b[1..]);
    }
  }

  lemma {:induction false} LexTrans(a: string, b: string, c: string)
    requires LexLe(a, b) && LexLe(b, c)
    ensures LexLe(a, c)
    decreases |a|
  {
    if a != [] && a[0] == b[0] && b[0] == c[0] {
      LexTrans(a[1..], b[1..], c[1..]);
    }
  }

  lemma {:induction false} LexAntisym(a: string, b: string)
    requires LexLe(a, b) && LexLe(b, a)
    ensures a == b
    decreases |a|
  {
    if a != [] {
      LexAntisym(a[1..], b[1..]);
      assert a == [a[0]] + a[1..] && b == [b[0]] + b[1..];
    }
  }

  /** `s.split(d)` for a one-character separator: the pieces between
      occurrences of `d`, always at least one. */
  function Split(s: string, d: char): (r: seq<string>)
    ensures |r| >= 1
    ensures forall i :: 0 <= i < |r| ==> d !in r[i]
  {
    if s == [] then [""]
    else if s[0] == d then [""] + Split(s[1..], d)
    else
      var rest := Split(s[1..], d);
      [[s[0]] + rest[0]] + rest[1..]
  }

  /** The first piece is the text before the first `d` (all of it when
      there is none). */
  lemma {:induction false} SplitFirst(s: string, d: char)
    ensures |Split(s, d)[0]| <= |s| && Split(s, d)[0] == s[..|Split(s, d)[0]|]
    ensures |Split(s, d)[0]| == |s| || s[|Split(s, d)[0]|] == d
  {
    if s != [] && s[0] != d {
      SplitFirst(s[1..], d);
    }
  }

  /** `pieces.join(d)`. */
  function Join(pieces: seq<string>, d: char): string
  {
    if |pieces| == 0 then ""
    else if |pieces| == 1 then pieces[0]
    else pieces[0] + [d] + Join(pieces[1..], d)
  }

  /** Splitting loses nothing: joining the pieces gives the text back. */
  lemma {:induction false} JoinSplit(s: string, d: char)
    ensures Join(Split(s, d), d) == s
  {
    if s != [] {
      JoinSplit(s[1..], d);
      var rest := Split(s[1..], d);
      if s[0] == d {
        assert Split(s, d) == [""] + rest;
        assert Join(Split(s, d), d) == "" + [d] + Join(rest, d);
      } else {
        var r := Split(s, d);
        assert r == [[s[0]] + rest[0]] + rest[1..];
        if |rest| == 1 {
          assert Join(r, d) == [s[0]] + rest[0];
        } else {
          assert r[1..] == rest[1..];
          assert Join(r, d) == [s[0]] + rest[0] + [d] + Join(rest[1..], d);
          assert Join(rest, d) == rest[0] + [d] + Join(rest[1..], d);
        }
      }
    }
  }

  /** The characters `String.prototype.trim` removes: ECMAScript's
      WhiteSpace (tab, vertical tab, form feed, space, no-break space,
      byte order mark and the Zs category) and LineTerminator. */
  predicate IsWhitespace(c: char)
  {
    c == '\t' || c == '\n' || c == '\U{B}' || c == '\U{C}' || c == '\r' || c == ' '
    || c == '\U{A0}' || c == '\U{1680}' || ('\U{2000}' <= c <= '\U{200A}')
    || c == '\U{2028}' || c == '\U{2029}' || c == '\U{202F}' || c == '\U{205F}'
    || c == '\U{3000}' || c == '\U{FEFF}'
  }

  /** `s.trim() === ''`: every character is white space. */
  predicate Blank(s: string)
  {
    forall i :: 0 <= i < |s| ==> IsWhitespace(s[i])
  }

  /** Number of leading white-space characters of `s`. */
  function LeadingWhitespace(s: string): (n: nat)
    ensures n <= |s|
    ensures forall i :: 0 <= i < n ==> IsWhitespace(s[i])
    ensures n < |s| ==> !IsWhitespace(s[n])
  {
    if s != [] && IsWhitespace(s[0]) then 1 + LeadingWhitespace(s[1..]) else 0
  }
}
