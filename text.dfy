/** The two string operations the core relies on: ECMAScript `String.prototype.trim` and `toLowerCase`. */
module Text {

  /** ECMAScript WhiteSpace and LineTerminator code points: exactly what `trim` removes from both ends. */
  predicate IsSpace(c: char)
  {
    || c == ' ' || c == '\t' || c == '\n' || c == '\r' || c == '\U{000B}' || c == '\U{000C}'
    || c == '\U{00A0}' || c == '\U{1680}' || ('\U{2000}' <= c <= '\U{200A}')
    || c == '\U{2028}' || c == '\U{2029}' || c == '\U{202F}' || c == '\U{205F}'
    || c == '\U{3000}' || c == '\U{FEFF}'
  }

  /** Drops leading white space. */
  function TrimStart(s: string): string
  {
    if |s| > 0 && IsSpace(s[0]) then TrimStart(s[1..]) else s
  }

  /** Drops trailing white space. */
  function TrimEnd(s: string): string
  {
    if |s| > 0 && IsSpace(s[|s| - 1]) then TrimEnd(s[..|s| - 1]) else s
  }

  /** `TrimStart` keeps a suffix of `s` that does not begin with white space, and drops only white space. */
  lemma {:induction false} TrimStartSpec(s: string)
    ensures |TrimStart(s)| <= |s| && TrimStart(s) == s[|s| - |TrimStart(s)|..]
    ensures TrimStart(s) != [] ==> !IsSpace(TrimStart(s)[0])
    ensures forall i :: 0 <= i < |s| - |TrimStart(s)| ==> IsSpace(s[i])
  {
    if |s| > 0 && IsSpace(s[0]) {
      TrimStartSpec(s[1..]);
      forall i | 0 <= i < |s| - |TrimStart(s)| ensures IsSpace(s[i]) {
        if i > 0 { assert s[i] == s[1..][i - 1]; }
      }
    }
  }

  /** `TrimEnd` keeps a prefix of `s` that does not end with white space, and drops only white space. */
  lemma {:induction false} TrimEndSpec(s: string)
    ensures |TrimEnd(s)| <= |s| && TrimEnd(s) == s[..|TrimEnd(s)|]
    ensures TrimEnd(s) != [] ==> !IsSpace(TrimEnd(s)[|TrimEnd(s)| - 1])
    ensures forall i :: |TrimEnd(s)| <= i < |s| ==> IsSpace(s[i])
  {
    if |s| > 0 && IsSpace(s[|s| - 1]) {
      var p := s[..|s| - 1];
      TrimEndSpec(p);
      assert TrimEnd(s) == TrimEnd(p);
      forall i | |TrimEnd(s)| <= i < |s| ensures IsSpace(s[i]) {
        if i < |s| - 1 { assert s[i] == p[i]; }
      }
    }
  }

  /** `s.trim()`. */
  function Trim(s: string): string
  {
    TrimEnd(TrimStart(s))
  }

  /** What `trim` keeps is the slice of `s` after its leading white space, with only white space cut from either
      end, and with no white space left at either end of the result. */
  lemma TrimShape(s: string)
    ensures var r, k := Trim(s), |s| - |TrimStart(s)|;
      && 0 <= k && k + |r| <= |s| && r == s[k..k + |r|]
      && (forall i :: 0 <= i < k ==> IsSpace(s[i]))
      && (forall i :: k + |r| <= i < |s| ==> IsSpace(s[i]))
      && (r != [] ==> !IsSpace(r[0]) && !IsSpace(r[|r| - 1]))
  {
    var t := TrimStart(s);
    var k := |s| - |t|;
    TrimStartSpec(s);
    assert t == s[k..];
    var r := TrimEnd(t);
    TrimEndSpec(t);
    assert r == s[k..k + |r|];
    forall i | k + |r| <= i < |s| ensures IsSpace(s[i]) {
      assert s[i] == t[i - k];
    }
  }

  /** `s.trim() === ""` exactly when `s` consists of white space only (the empty string included). */
  lemma TrimBlank(s: string)
    ensures Trim(s) == "" <==> forall i :: 0 <= i < |s| ==> IsSpace(s[i])
  {
    TrimShape(s);
    if forall i :: 0 <= i < |s| ==> IsSpace(s[i]) {
      TrimStartSpec(s);
    }
  }

  /** Trimming twice is trimming once. */
  lemma TrimIdempotent(s: string)
    ensures Trim(Trim(s)) == Trim(s)
  {
    var r := Trim(s);
    TrimShape(s);
    if r != [] {
      assert TrimStart(r) == r;
      assert TrimEnd(r) == r;
    }
  }

  /** `toLowerCase` on one character; the model maps only the ASCII capitals. */
  function LowerChar(c: char): char
  {
    if 'A' <= c <= 'Z' then (c as int + 32) as char else c
  }

  /** `s.toLowerCase()`, character by character. */
  function ToLower(s: string): string
  {
    seq(|s|, i requires 0 <= i < |s| => LowerChar(s[i]))
  }

  /** No ASCII capital letter occurs in `s`. */
  predicate IsLower(s: string)
  {
    forall i :: 0 <= i < |s| ==> !('A' <= s[i] <= 'Z')
  }

  /** The schema's `lowercase: true, trim: true` setters; `SettersCommute` shows their order does not matter. */
  function Normalize(s: string): string
  {
    Trim(ToLower(s))
  }

  /** Lower-casing does not touch white space, so it does not change what `trim` considers blank. */
  lemma LowerKeepsSpace(s: string)
    ensures |ToLower(s)| == |s|
    ensures forall i :: 0 <= i < |s| ==> (IsSpace(ToLower(s)[i]) <==> IsSpace(s[i]))
  {
  }

  /** Lower-casing commutes with dropping leading white space. */
  lemma {:induction false} LowerTrimStart(s: string)
    ensures TrimStart(ToLower(s)) == ToLower(TrimStart(s))
  {
    LowerKeepsSpace(s);
    if |s| > 0 && IsSpace(s[0]) {
      assert ToLower(s)[1..] == ToLower(s[1..]);
      LowerTrimStart(s[1..]);
    }
  }

  /** Lower-casing commutes with dropping trailing white space. */
  lemma {:induction false} LowerTrimEnd(s: string)
    ensures TrimEnd(ToLower(s)) == ToLower(TrimEnd(s))
  {
    LowerKeepsSpace(s);
    if |s| > 0 && IsSpace(s[|s| - 1]) {
      assert ToLower(s)[..|s| - 1] == ToLower(s[..|s| - 1]);
      LowerTrimEnd(s[..|s| - 1]);
    }
  }

  /** The lowercase and trim setters commute, so `Normalize` does not depend on the order Mongoose runs them in. */
  lemma SettersCommute(s: string)
    ensures Normalize(s) == ToLower(Trim(s))
  {
    LowerTrimStart(s);
    LowerTrimEnd(TrimStart(s));
  }

  /** Every slice of a lower-case string is lower-case. */
  lemma LowerSlice(s: string, a: nat, b: nat)
    requires IsLower(s) && a <= b <= |s|
    ensures IsLower(s[a..b])
  {
    assert forall i :: 0 <= i < b - a ==> s[a..b][i] == s[a + i];
  }

  /** `toLowerCase` yields a lower-case string. */
  lemma ToLowerIsLower(s: string)
    ensures IsLower(ToLower(s))
  {
  }

  /** `toLowerCase` leaves a lower-case string as it is. */
  lemma ToLowerOfLower(s: string)
    requires IsLower(s)
    ensures ToLower(s) == s
  {
    assert forall i :: 0 <= i < |s| ==> ToLower(s)[i] == s[i];
  }

  /** A normalized value is lower-case and already trimmed, and normalizing it again changes nothing. */
  lemma NormalizeShape(s: string)
    ensures IsLower(Normalize(s))
    ensures Trim(Normalize(s)) == Normalize(s)
    ensures ToLower(Normalize(s)) == Normalize(s)
    ensures Normalize(Normalize(s)) == Normalize(s)
  {
    var l := ToLower(s);
    var r := Normalize(s);
    TrimShape(l);
    TrimStartSpec(l);
    var k := |l| - |TrimStart(l)|;
    ToLowerIsLower(s);
    LowerSlice(l, k, k + |r|);
    TrimIdempotent(l);
    ToLowerOfLower(r);
  }

  /** A normalized value is blank exactly when the raw value is blank after trimming. */
  lemma NormalizeBlank(s: string)
    ensures Normalize(s) == "" <==> Trim(s) == ""
  {
    LowerKeepsSpace(s);
    TrimBlank(s);
    TrimBlank(ToLower(s));
  }

  /** A string that starts with a non-space character stays non-empty under trimming and normalizing. */
  lemma NotBlank(s: string)
    requires |s| > 0 && !IsSpace(s[0])
    ensures Trim(s) != "" && Normalize(s) != ""
  {
    TrimBlank(s);
    NormalizeBlank(s);
  }
}
