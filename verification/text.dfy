/** The pieces of the .NET string API the poker library relies on:
    String.Trim, the pattern ^[a-zA-Z0-9]*$, String.ToUpper, String.Split
    and String.IndexOf, each written out over `seq<char>`. */
module Text {
  import opened Wrappers

  /** Exactly the characters Char.IsWhiteSpace accepts, which are the ones
      String.Trim() removes. */
  predicate IsWhiteSpace(c: char) {
    var n := c as int;
    || (0x09 <= n <= 0x0D) || n == 0x20 || n == 0x85 || n == 0xA0 || n == 0x1680
    || (0x2000 <= n <= 0x200A) || n == 0x2028 || n == 0x2029 || n == 0x202F
    || n == 0x205F || n == 0x3000
  }

  /** One character of the class [a-zA-Z0-9]. */
  predicate IsAlphanumeric(c: char) {
    ('a' <= c <= 'z') || ('A' <= c <= 'Z') || ('0' <= c <= '9')
  }

  /** The whole string matches ^[a-zA-Z0-9]*$. */
  predicate AllAlphanumeric(s: string) {
    forall i | 0 <= i < |s| :: IsAlphanumeric(s[i])
  }

  /** ASCII upper-casing of one character; every other character is kept. */
  function UpperChar(c: char): char {
    if 'a' <= c <= 'z' then (c as int - 32) as char else c
  }

  function Upper(s: string): (u: string)
    ensures |u| == |s|
    ensures forall i | 0 <= i < |s| :: u[i] == UpperChar(s[i])
  {
    seq(|s|, i requires 0 <= i < |s| => UpperChar(s[i]))
  }

  /** What upper-casing promises: no lower-case ASCII letter is left, only
      lower-case letters change, each to the letter 32 code points below,
      and upper-casing again changes nothing. */
  lemma UpperSpec(s: string)
    ensures forall i | 0 <= i < |s| :: !('a' <= Upper(s)[i] <= 'z')
    ensures forall i | 0 <= i < |s| :: Upper(s)[i] != s[i] <==> 'a' <= s[i] <= 'z'
    ensures forall i | 0 <= i < |s| :: 'a' <= s[i] <= 'z' ==> Upper(s)[i] as int == s[i] as int - 32
    ensures Upper(Upper(s)) == Upper(s)
  {
  }

  /** Upper-casing commutes with taking a prefix or a suffix. */
  lemma UpperSlices(s: string, k: nat)
    requires k <= |s|
    ensures Upper(s)[..k] == Upper(s[..k])
    ensures Upper(s)[k..] == Upper(s[k..])
  {
  }

  /** A character upper-cases to a letter or digit only if it was one. */
  lemma UpperKeepsAlphanumeric(c: char)
    ensures IsAlphanumeric(UpperChar(c)) <==> IsAlphanumeric(c)
  {
  }

  /** Removes leading white space. */
  function TrimStart(s: string): (r: string)
    ensures |r| <= |s| && r == s[|s| - |r|..]
    ensures forall i | 0 <= i < |s| - |r| :: IsWhiteSpace(s[i])
    ensures |r| > 0 ==> !IsWhiteSpace(r[0])
    decreases |s|
  {
    if |s| > 0 && IsWhiteSpace(s[0]) then TrimStart(s[1..]) else s
  }

  /** Removes trailing white space. */
  function TrimEnd(s: string): (r: string)
    ensures |r| <= |s| && r == s[..|r|]
    ensures forall i | |r| <= i < |s| :: IsWhiteSpace(s[i])
    ensures |r| > 0 ==> !IsWhiteSpace(r[|r| - 1])
    decreases |s|
  {
    if |s| > 0 && IsWhiteSpace(s[|s| - 1]) then TrimEnd(s[..|s| - 1]) else s
  }

  /** String.Trim(): the middle of `s` once the white-space runs at both ends
      are cut away. */
  function Trim(s: string): (r: string)
    ensures |r| <= |s|
    ensures |r| > 0 ==> !IsWhiteSpace(r[0]) && !IsWhiteSpace(r[|r| - 1])
    ensures exists k :: Padded(s, r, k)
  {
    var t := TrimStart(s);
    var r := TrimEnd(t);
    assert Padded(s, r, |s| - |t|);
    r
  }

  /** `s` is `r` with only white space before position `k` and after it. */
  ghost predicate Padded(s: string, r: string, k: int) {
    && 0 <= k <= |s| - |r|
    && r == s[k..k + |r|]
    && (forall i | 0 <= i < k :: IsWhiteSpace(s[i]))
    && (forall i | k + |r| <= i < |s| :: IsWhiteSpace(s[i]))
  }

  /** A string with no white space at either end is its own trimming. */
  lemma {:induction false} TrimUnpadded(s: string)
    requires |s| > 0 ==> !IsWhiteSpace(s[0]) && !IsWhiteSpace(s[|s| - 1])
    ensures Trim(s) == s
  {
    assert TrimStart(s) == s;
    assert TrimEnd(s) == s;
  }

  /** Trimming twice is trimming once. */
  lemma TrimIdempotent(s: string)
    ensures Trim(Trim(s)) == Trim(s)
  {
    TrimUnpadded(Trim(s));
  }

  /** Number of occurrences of `c` in `s`. */
  function Occurrences(s: string, c: char): nat {
    if s == [] then 0 else (if s[0] == c then 1 else 0) + Occurrences(s[1..], c)
  }

  /** No piece contains `c`. */
  predicate FreeOf(parts: seq<string>, c: char) {
    forall i | 0 <= i < |parts| :: c !in parts[i]
  }

  /** String.Join(sep, parts). */
  function Join(parts: seq<string>, sep: char): string
    requires |parts| >= 1
  {
    if |parts| == 1 then parts[0] else parts[0] + [sep] + Join(parts[1..], sep)
  }

  /** String.Split(sep): the pieces between separators, empty pieces
      included, so there is always one more piece than separators. */
  function Split(s: string, sep: char): (parts: seq<string>)
    ensures |parts| == Occurrences(s, sep) + 1
    decreases |s|
  {
    if s == [] then [[]]
    else
      var rest := Split(s[1..], sep);
      if s[0] == sep then [[]] + rest
      else [[s[0]] + rest[0]] + rest[1..]
  }

  /** The pieces hold no separator, and joining them back with the separator
      gives the input again. */
  lemma {:induction false} SplitSpec(s: string, sep: char)
    ensures FreeOf(Split(s, sep), sep)
    ensures Join(Split(s, sep), sep) == s
    decreases |s|
  {
    if s != [] {
      var rest := Split(s[1..], sep);
      SplitSpec(s[1..], sep);
      assert s == [s[0]] + s[1..];
      if s[0] == sep {
        assert ([[]] + rest)[1..] == rest;
      } else {
        var parts := [[s[0]] + rest[0]] + rest[1..];
        assert parts[1..] == rest[1..];
        assert FreeOf(parts, sep) by {
          forall i | 0 <= i < |parts| ensures sep !in parts[i] {
            if i == 0 {
              assert parts[0] == [s[0]] + rest[0];
            } else {
              assert parts[i] == rest[i];
            }
          }
        }
      }
    }
  }

  /** Splitting undoes joining when no piece contains the separator. */
  lemma {:induction false} SplitJoin(parts: seq<string>, sep: char)
    requires |parts| >= 1
    requires FreeOf(parts, sep)
    ensures Split(Join(parts, sep), sep) == parts
    decreases |Join(parts, sep)|
  {
    var s := Join(parts, sep);
    if parts[0] == [] {
      if |parts| == 1 {
      } else {
        SplitJoin(parts[1..], sep);
        assert s == [sep] + Join(parts[1..], sep);
        assert s[1..] == Join(parts[1..], sep);
        assert [[]] + parts[1..] == parts;
      }
    } else {
      var p0 := parts[0];
      var shorter := [p0[1..]] + parts[1..];
      assert shorter[1..] == parts[1..];
      assert FreeOf(shorter, sep) by {
        forall i | 0 <= i < |shorter|
          ensures sep !in shorter[i]
        {
          if i == 0 {
            assert p0 == [p0[0]] + p0[1..];
          } else {
            assert shorter[i] == parts[i];
          }
        }
      }
      assert Join(shorter, sep) == s[1..] by {
        if |parts| == 1 {
        } else {
          assert s == p0 + [sep] + Join(parts[1..], sep);
          assert Join(shorter, sep) == p0[1..] + [sep] + Join(parts[1..], sep);
        }
      }
      SplitJoin(shorter, sep);
      assert s[0] == p0[0] && p0[0] != sep;
      assert [[s[0]] + shorter[0]] + shorter[1..] == parts by {
        assert [s[0]] + p0[1..] == p0;
      }
    }
  }

  /** String.IndexOf(c): the first position of `c`, or -1 when it is absent. */
  function IndexOf(s: string, c: char): (r: int)
    ensures r >= -1
    ensures r == -1 <==> c !in s
    ensures r >= 0 ==> r < |s| && s[r] == c && c !in s[..r]
    decreases |s|
  {
    if s == [] then -1
    else if s[0] == c then 0
    else
      var k := IndexOf(s[1..], c);
      assert s == [s[0]] + s[1..];
      if k < 0 then -1 else
        assert s[..k + 1] == [s[0]] + s[1..][..k];
        k + 1
  }

  /** The text before the first `c` and, when there is one, the text after
      it. */
  function CutAt(s: string, c: char): (r: (string, Option<string>))
    ensures c !in s ==> r == (s, None)
    ensures c in s ==>
      && c !in r.0 && |r.0| < |s|
      && s[..|r.0|] == r.0 && s[|r.0|] == c
      && r.1 == Some(s[|r.0| + 1..])
  {
    var i := IndexOf(s, c);
    if i >= 0 then
      var head := s[..i];
      assert |head| == i;
      (head, Some(s[i + 1..]))
    else (s, None)
  }

  /** In x + [c] + y with no `c` in x, the first `c` is the one after x. */
  lemma IndexOfAfter(x: string, c: char, y: string)
    requires c !in x
    ensures IndexOf(x + [c] + y, c) == |x|
  {
    var s := x + [c] + y;
    var r := IndexOf(s, c);
    assert s[|x|] == c;
    assert s[..|x|] == x;
    assert r <= |x|;
    assert r >= |x|;
  }
}
