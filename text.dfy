/** String operations the task store relies on: whitespace trimming, ASCII
    lower-casing, substring search and the ordering used to compare titles.
    Strings are sequences of Unicode scalar values. */
module Text {

  /** The characters ECMAScript's String.prototype.trim treats as white space
      or line terminators. */
  predicate IsSpace(c: char) {
    || c == ' ' || c == '\t' || c == '\n' || c == '\r'
    || c == '\U{000B}' || c == '\U{000C}' || c == '\U{00A0}' || c == '\U{FEFF}'
    || c == '\U{1680}' || ('\U{2000}' <= c <= '\U{200A}')
    || c == '\U{2028}' || c == '\U{2029}' || c == '\U{202F}' || c == '\U{205F}' || c == '\U{3000}'
  }

  predicate AllSpace(s: string) {
    forall i :: 0 <= i < |s| ==> IsSpace(s[i])
  }

  /** Drops leading white space: what is cut is all white space, and what
      is left starts with a character that is not. */
  function TrimStart(s: string): (r: string)
    ensures |r| <= |s| && r == s[|s| - |r|..]
    ensures AllSpace(s[..|s| - |r|])
    ensures r == [] || !IsSpace(r[0])
    ensures r == [] <==> AllSpace(s)
  {
    if s != [] && IsSpace(s[0]) then
      var r := TrimStart(s[1..]);
      var cut := |s| - |r|;
      assert r == s[cut..] by {
        assert s[1..][cut - 1..] == s[cut..];
      }
      assert AllSpace(s[..cut]) by {
        forall i | 0 <= i < cut ensures IsSpace(s[..cut][i]) {
          if i > 0 {
            assert s[..cut][i] == s[1..][..cut - 1][i - 1];
          }
        }
      }
      assert AllSpace(s[1..]) ==> AllSpace(s) by {
        if AllSpace(s[1..]) {
          forall i | 0 < i < |s| ensures IsSpace(s[i]) {
            assert s[i] == s[1..][i - 1];
          }
        }
      }
      assert AllSpace(s) ==> AllSpace(s[1..]) by {
        if AllSpace(s) {
          forall i | 0 <= i < |s| - 1 ensures IsSpace(s[1..][i]) {
            assert s[1..][i] == s[i + 1];
          }
        }
      }
      r
    else
      assert s != [] ==> !AllSpace(s) by {
        if s != [] {
          assert !IsSpace(s[0]);
        }
      }
      assert s[..0] == [];
      s
  }

  /** Drops trailing white space, the mirror image of `TrimStart`. */
  function TrimEnd(s: string): (r: string)
    ensures |r| <= |s| && r == s[..|r|]
    ensures AllSpace(s[|r|..])
    ensures r == [] || !IsSpace(r[|r| - 1])
    ensures r == [] <==> AllSpace(s)
  {
    if s != [] && IsSpace(s[|s| - 1]) then
      var init := s[..|s| - 1];
      var r := TrimEnd(init);
      assert r == s[..|r|] by {
        assert init[..|r|] == s[..|r|];
      }
      assert AllSpace(s[|r|..]) by {
        forall i | |r| <= i < |s| ensures IsSpace(s[i]) {
          if i < |s| - 1 {
            assert s[i] == init[|r|..][i - |r|];
          }
        }
      }
      assert AllSpace(init) ==> AllSpace(s) by {
        if AllSpace(init) {
          forall i | 0 <= i < |s| - 1 ensures IsSpace(s[i]) {
            assert s[i] == init[i];
          }
        }
      }
      assert AllSpace(s) ==> AllSpace(init) by {
        if AllSpace(s) {
          forall i | 0 <= i < |init| ensures IsSpace(init[i]) {
            assert init[i] == s[i];
          }
        }
      }
      r
    else
      assert s != [] ==> !AllSpace(s) by {
        if s != [] {
          assert !IsSpace(s[|s| - 1]);
        }
      }
      assert s[|s|..] == [];
      s
  }

  /** `r` is `s` with the white space `s[..a]` cut from the front and the
      white space `s[b..]` cut from the back. */
  predicate CutAt(s: string, r: string, a: int, b: int) {
    0 <= a <= b <= |s| && r == s[a..b] && AllSpace(s[..a]) && AllSpace(s[b..])
  }

  /** Cutting white space from the front (leaving `t`) and then from the
      back of what is left (leaving `r`) is one cut at each end; what is
      left has white space at neither end, and is empty exactly when `s` is
      all white space. */
  lemma CutBothEnds(s: string, t: string, r: string)
    requires |t| <= |s| && t == s[|s| - |t|..] && AllSpace(s[..|s| - |t|])
    requires (t == [] || !IsSpace(t[0])) && (t == [] <==> AllSpace(s))
    requires |r| <= |t| && r == t[..|r|] && AllSpace(t[|r|..])
    requires (r == [] || !IsSpace(r[|r| - 1])) && (r == [] <==> AllSpace(t))
    ensures CutAt(s, r, |s| - |t|, |s| - |t| + |r|)
    ensures r == [] || (!IsSpace(r[0]) && !IsSpace(r[|r| - 1]))
    ensures r == [] <==> AllSpace(s)
  {
    var a := |s| - |t|;
    var b := a + |r|;
    assert r == s[a..b] by {
      forall k | 0 <= k < |r| ensures r[k] == s[a + k] {
        assert r[k] == t[k];
      }
    }
    assert AllSpace(s[b..]) by {
      forall k | 0 <= k < |s| - b ensures IsSpace(s[b..][k]) {
        assert s[b..][k] == t[|r|..][k];
      }
    }
    if t != [] {
      assert !AllSpace(t) by {
        assert !IsSpace(t[0]);
      }
      assert r[0] == t[0];
    }
  }

  /** String.prototype.trim: `s` with a run of white space cut from each
      end, leaving white space at neither end; the result is empty exactly
      when `s` is all white space. */
  function Trim(s: string): (r: string)
    ensures exists a, b :: CutAt(s, r, a, b)
    ensures r == [] || (!IsSpace(r[0]) && !IsSpace(r[|r| - 1]))
    ensures r == [] <==> AllSpace(s)
  {
    var t := TrimStart(s);
    var r := TrimEnd(t);
    CutBothEnds(s, t, r);
    r
  }

  /** ASCII case mapping; other characters are left as they are. */
  function LowerChar(c: char): char {
    if 'A' <= c <= 'Z' then (c as int + 32) as char else c
  }

  /** String.prototype.toLowerCase over ASCII letters. */
  function ToLower(s: string): (r: string)
    ensures |r| == |s|
    ensures forall i :: 0 <= i < |s| ==> r[i] == LowerChar(s[i])
  {
    seq(|s|, i requires 0 <= i < |s| => LowerChar(s[i]))
  }

  /** Lower-casing twice is lower-casing once. */
  lemma ToLowerIdempotent(s: string)
    ensures ToLower(ToLower(s)) == ToLower(s)
  {
  }

  /** Lower-casing neither creates nor removes white space. */
  lemma ToLowerKeepsSpace(s: string)
    ensures AllSpace(ToLower(s)) <==> AllSpace(s)
  {
    forall i | 0 <= i < |s| ensures IsSpace(ToLower(s)[i]) <==> IsSpace(s[i]) {
      assert ToLower(s)[i] == LowerChar(s[i]);
    }
  }

  predicate IsPrefix(p: string, s: string) {
    |p| <= |s| && s[..|p|] == p
  }

  /** String.prototype.includes: does `needle` occur in `hay`? */
  predicate Contains(hay: string, needle: string)
    decreases |hay|
  {
    IsPrefix(needle, hay) || (hay != [] && Contains(hay[1..], needle))
  }

  /** `needle` sits at position `k` of `hay`. */
  predicate OccursAt(hay: string, needle: string, k: int) {
    0 <= k <= |hay| - |needle| && hay[k..k + |needle|] == needle
  }

  /** The recursive `Contains` agrees with "occurs at some position". */
  lemma {:induction false} ContainsIff(hay: string, needle: string)
    ensures Contains(hay, needle) <==> exists k :: OccursAt(hay, needle, k)
    decreases |hay|
  {
    if IsPrefix(needle, hay) {
      assert OccursAt(hay, needle, 0);
    } else if hay == [] {
    } else {
      ContainsIff(hay[1..], needle);
      if Contains(hay[1..], needle) {
        var k :| OccursAt(hay[1..], needle, k);
        assert hay[1..][k..k + |needle|] == hay[k + 1..k + 1 + |needle|];
        assert OccursAt(hay, needle, k + 1);
      } else {
        forall k | OccursAt(hay, needle, k)
          ensures false
        {
          if k == 0 {
            assert false;
          } else {
            assert hay[1..][k - 1..k - 1 + |needle|] == hay[k..k + |needle|];
            assert OccursAt(hay[1..], needle, k - 1);
          }
        }
      }
    }
  }

  /** The order of String.prototype.localeCompare, modelled as lexicographic
      comparison of code points: negative, zero or positive. */
  function CompareStrings(a: string, b: string): (r: int)
    ensures -1 <= r <= 1
    ensures r == 0 <==> a == b
  {
    if a == [] && b == [] then 0
    else if a == [] then -1
    else if b == [] then 1
    else if a[0] < b[0] then -1
    else if a[0] > b[0] then 1
    else
      var r := CompareStrings(a[1..], b[1..]);
      assert a == [a[0]] + a[1..] && b == [b[0]] + b[1..];
      r
  }

  /** Swapping the operands flips the sign. */
  lemma {:induction false} CompareStringsAntisymmetric(a: string, b: string)
    ensures CompareStrings(b, a) == -CompareStrings(a, b)
  {
    if a != [] && b != [] && a[0] == b[0] {
      CompareStringsAntisymmetric(a[1..], b[1..]);
    }
  }

  /** "Not after" is transitive. */
  lemma {:induction false} CompareStringsTransitive(a: string, b: string, c: string)
    requires CompareStrings(a, b) <= 0 && CompareStrings(b, c) <= 0
    ensures CompareStrings(a, c) <= 0
  {
    if a != [] && b != [] && c != [] && a[0] == b[0] && b[0] == c[0] {
      CompareStringsTransitive(a[1..], b[1..], c[1..]);
    }
  }
}
