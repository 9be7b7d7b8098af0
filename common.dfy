/** Values shared by every router: optional values, HTTP-style outcomes,
    and the handful of Python string operations the routers rely on
    (truthiness, slicing, `strip`, `split`, `lower`). */
module Common {

  datatype Option<+T> = None | Some(value: T)

  /** The result of an endpoint: a value, or the status code and detail of
      the `HTTPException` it raises. */
  datatype Outcome<+T> = Ok(value: T) | Fail(status: nat, detail: string)

  /** Python truthiness of an optional string: `None` and `""` are false. */
  predicate Truthy(s: Option<string>)
  {
    s.Some? && s.value != ""
  }

  /** Python's `s[:n]`. */
  function Prefix(s: string, n: nat): (r: string)
    ensures |r| == if |s| < n then |s| else n
    ensures r <= s
  {
    if |s| <= n then s else s[..n]
  }

  /** The characters for which Python's `str.isspace()` holds; these are
      the ones `str.strip()` removes. */
  predicate IsSpace(c: char)
  {
    var n := c as int;
    (0x09 <= n <= 0x0D) || (0x1C <= n <= 0x20) || n == 0x85 || n == 0xA0
    || n == 0x1680 || (0x2000 <= n <= 0x200A) || n == 0x2028 || n == 0x2029
    || n == 0x202F || n == 0x205F || n == 0x3000
  }

  function StripLeft(s: string): (r: string)
    ensures |r| <= |s| && r == s[|s| - |r|..]
    ensures r != [] ==> !IsSpace(r[0])
  {
    if s != [] && IsSpace(s[0]) then StripLeft(s[1..]) else s
  }

  function StripRight(s: string): (r: string)
    ensures r <= s
    ensures r != [] ==> !IsSpace(r[|r| - 1])
  {
    if s != [] && IsSpace(s[|s| - 1]) then StripRight(s[..|s| - 1]) else s
  }

  /** Python's `s.strip()`. */
  function Strip(s: string): (r: string)
    ensures |r| <= |s|
    ensures r != [] ==> !IsSpace(r[0]) && !IsSpace(r[|r| - 1])
  {
    StripRight(StripLeft(s))
  }

  /** Python's `s.split(sep)` for a one-character separator. */
  function Split(s: string, sep: char): (r: seq<string>)
    ensures |r| >= 1
    ensures forall i :: 0 <= i < |r| ==> sep !in r[i]
  {
    if s == [] then [""]
    else if s[0] == sep then [""] + Split(s[1..], sep)
    else
      var rest := Split(s[1..], sep);
      [[s[0]] + rest[0]] + rest[1..]
  }

  /** Python's `sep.join(parts)`. */
  function Join(parts: seq<string>, sep: char): string
  {
    if parts == [] then ""
    else if |parts| == 1 then parts[0]
    else parts[0] + [sep] + Join(parts[1..], sep)
  }

  /** Splitting and joining again gives the original string back. */
  lemma {:induction false} JoinSplit(s: string, sep: char)
    ensures Join(Split(s, sep), sep) == s
  {
    if s == [] {
    } else if s[0] == sep {
      JoinSplit(s[1..], sep);
      assert s == [sep] + s[1..];
    } else {
      JoinSplit(s[1..], sep);
      var rest := Split(s[1..], sep);
      if |rest| == 1 {
        assert s == [s[0]] + s[1..];
      } else {
        assert Join(rest, sep) == rest[0] + [sep] + Join(rest[1..], sep);
        assert s == [s[0]] + s[1..];
      }
    }
  }

  /** When the string starts with `k` ordinary characters and then the
      separator, the first piece is those characters and the second piece
      is what follows up to the next separator. */
  lemma {:induction false} SplitAfterPrefix(s: string, sep: char, k: nat)
    requires k < |s| && s[k] == sep && sep !in s[..k]
    ensures |Split(s, sep)| >= 2
    ensures Split(s, sep)[0] == s[..k]
    ensures Split(s, sep)[1] == Split(s[k + 1..], sep)[0]
  {
    if k == 0 {
      assert s[0] == sep;
    } else {
      assert s[0] != sep by { assert s[..k][0] == s[0]; }
      assert s[1..][..k - 1] == s[..k][1..];
      SplitAfterPrefix(s[1..], sep, k - 1);
      assert s[1..][k - 1 + 1..] == s[k + 1..];
    }
  }

  /** The first piece of a split is the longest prefix free of the
      separator: it is a prefix, and the separator follows it unless it is
      the whole string. */
  lemma {:induction false} SplitHead(s: string, sep: char)
    ensures Split(s, sep)[0] <= s
    ensures |Split(s, sep)[0]| < |s| ==> s[|Split(s, sep)[0]|] == sep
  {
    if s != [] && s[0] != sep {
      SplitHead(s[1..], sep);
      var h := Split(s[1..], sep)[0];
      assert Split(s, sep)[0] == [s[0]] + h;
      assert s == [s[0]] + s[1..];
    }
  }

  /** The last piece of a split (`s.split(sep)[-1]`) is the longest suffix
      free of the separator: it is a suffix, and the separator precedes it
      unless it is the whole string. */
  lemma {:induction false} SplitLast(s: string, sep: char)
    ensures var parts := Split(s, sep); var l := parts[|parts| - 1];
      && (|parts| == 1 ==> l == s)
      && |l| + |parts| - 1 <= |s|
      && s[|s| - |l|..] == l
      && (|l| < |s| ==> s[|s| - |l| - 1] == sep)
  {
    if s != [] {
      var t := s[1..];
      SplitLast(t, sep);
      var rest := Split(t, sep);
      var l := rest[|rest| - 1];
      var parts := Split(s, sep);
      if s[0] != sep && |rest| == 1 {
        assert parts == [[s[0]] + t];
        assert [s[0]] + t == s;
      } else {
        assert parts[|parts| - 1] == l && |parts| <= |rest| + 1 by {
          if s[0] == sep {
            assert parts == [""] + rest;
          } else {
            assert parts == [[s[0]] + rest[0]] + rest[1..];
          }
        }
        assert s[|s| - |l|..] == l by {
          assert t[|t| - |l|..] == s[|s| - |l|..];
        }
        assert |l| < |s| ==> s[|s| - |l| - 1] == sep by {
          if |l| < |t| {
            assert t[|t| - |l| - 1] == s[|s| - |l| - 1];
          }
        }
      }
    }
  }

  /** ASCII case folding, the part of Python's `str.lower()` the routers'
      comparisons depend on. */
  function LowerChar(c: char): (r: char)
    ensures 'A' <= c <= 'Z' ==> 'a' <= r <= 'z'
    ensures !('A' <= c <= 'Z') ==> r == c
  {
    if 'A' <= c <= 'Z' then (c as int + 32) as char else c
  }

  function AsciiLower(s: string): (r: string)
    ensures |r| == |s|
    ensures forall i :: 0 <= i < |s| ==> r[i] == LowerChar(s[i])
  {
    if s == [] then [] else [LowerChar(s[0])] + AsciiLower(s[1..])
  }

  /** Python's `s.startswith(p)`. */
  predicate StartsWith(s: string, p: string)
  {
    p <= s
  }
}
