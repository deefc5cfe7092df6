/**
 * Whitespace trimming and ASCII case conversion of layer_settings_util.cpp.
 */
module Text {

  /** The set " \t\f\v\n\r" that `TrimWhitespace` strips. */
  predicate IsWhitespace(c: char)
  {
    c == ' ' || c == '\t' || c == 12 as char || c == 11 as char || c == '\n' || c == '\r'
  }

  ghost predicate AllWhitespace(s: string)
  {
    forall i :: 0 <= i < |s| ==> IsWhitespace(s[i])
  }

  /** `find_first_not_of(whitespace, from)`, with |s| standing for `npos`. */
  function FirstNotWhitespace(s: string, from: nat): (i: nat)
    requires from <= |s|
    ensures from <= i <= |s|
    ensures i < |s| ==> !IsWhitespace(s[i])
    ensures forall k :: from <= k < i ==> IsWhitespace(s[k])
    decreases |s| - from
  {
    if from == |s| then |s|
    else if !IsWhitespace(s[from]) then from
    else FirstNotWhitespace(s, from + 1)
  }

  /** `find_last_not_of(whitespace)` over `s[..upto]`, with -1 standing for `npos`. */
  function LastNotWhitespace(s: string, upto: nat): (i: int)
    requires upto <= |s|
    ensures -1 <= i < upto
    ensures i >= 0 ==> !IsWhitespace(s[i])
    ensures forall k :: i < k < upto ==> IsWhitespace(s[k])
  {
    if upto == 0 then -1
    else if !IsWhitespace(s[upto - 1]) then upto - 1
    else LastNotWhitespace(s, upto - 1)
  }

  /** `TrimWhitespace`: the part from the first to the last non-whitespace character. */
  function TrimWhitespace(s: string): (r: string)
    ensures r == [] <==> AllWhitespace(s)
    ensures r != [] ==> !IsWhitespace(r[0]) && !IsWhitespace(r[|r| - 1])
  {
    var b := FirstNotWhitespace(s, 0);
    if b == |s| then []
    else
      var e := LastNotWhitespace(s, |s|);
      // the source's assertion that the last non-whitespace character exists and is not before the first
      assert 0 <= e && b <= e;
      s[b..e + 1]
  }

  /**
   * The result is a contiguous part of the input, and what was cut off on
   * either side is whitespace.
   */
  lemma {:induction false} TrimWhitespaceSplits(s: string)
    ensures var r := TrimWhitespace(s);
      exists b :: 0 <= b <= |s| - |r| && s == s[..b] + r + s[b + |r|..]
        && AllWhitespace(s[..b]) && AllWhitespace(s[b + |r|..])
  {
    var r := TrimWhitespace(s);
    var b := FirstNotWhitespace(s, 0);
    if b == |s| {
      assert r == [];
      assert s == s[..0] + r + s[0..];
      assert AllWhitespace(s[0..]);
    } else {
      var e := LastNotWhitespace(s, |s|);
      TrimWhitespaceParts(s, b, e);
    }
  }

  lemma {:induction false} TrimWhitespaceParts(s: string, b: nat, e: int)
    requires b == FirstNotWhitespace(s, 0) && b < |s| && e == LastNotWhitespace(s, |s|)
    ensures 0 <= b <= e < |s| && TrimWhitespace(s) == s[b..e + 1]
    ensures s == s[..b] + s[b..e + 1] + s[e + 1..]
    ensures AllWhitespace(s[..b]) && AllWhitespace(s[e + 1..])
  {
    var tail := s[e + 1..];
    forall k | 0 <= k < |tail| ensures IsWhitespace(tail[k]) {
      assert tail[k] == s[e + 1 + k];
    }
    var head := s[..b];
    forall k | 0 <= k < |head| ensures IsWhitespace(head[k]) {
      assert head[k] == s[k];
    }
  }

  /**
   * Trimming is determined by its result: whitespace on both sides of a
   * string that neither starts nor ends with whitespace is exactly what is cut off.
   */
  lemma {:induction false} TrimWhitespacePadded(lead: string, m: string, trail: string)
    requires AllWhitespace(lead) && AllWhitespace(trail)
    requires m != [] ==> !IsWhitespace(m[0]) && !IsWhitespace(m[|m| - 1])
    ensures TrimWhitespace(lead + m + trail) == m
  {
    var s := lead + m + trail;
    if m == [] {
      assert AllWhitespace(s) by {
        forall k | 0 <= k < |s| ensures IsWhitespace(s[k]) {
          if k < |lead| { assert s[k] == lead[k]; } else { assert s[k] == trail[k - |lead|]; }
        }
      }
    } else {
      assert s[|lead|] == m[0];
      assert forall k :: 0 <= k < |lead| ==> s[k] == lead[k];
      var b := FirstNotWhitespace(s, 0);
      assert b == |lead|;
      var e := LastNotWhitespace(s, |s|);
      assert s[|lead| + |m| - 1] == m[|m| - 1];
      assert forall k :: |lead| + |m| <= k < |s| ==> s[k] == trail[k - |lead| - |m|];
      assert e == |lead| + |m| - 1;
      assert s[b..e + 1] == m;
    }
  }

  /** Trimming twice is trimming once. */
  lemma {:induction false} TrimWhitespaceIdempotent(s: string)
    ensures TrimWhitespace(TrimWhitespace(s)) == TrimWhitespace(s)
  {
    var r := TrimWhitespace(s);
    assert r == [] + r + [];
    TrimWhitespacePadded([], r, []);
  }

  /** `std::tolower` in the "C" locale. */
  function LowerChar(c: char): char
  {
    if 'A' <= c <= 'Z' then (c as int + 32) as char else c
  }

  /** `std::toupper` in the "C" locale. */
  function UpperChar(c: char): char
  {
    if 'a' <= c <= 'z' then (c as int - 32) as char else c
  }

  /** The string with every character passed through `LowerChar`. */
  function LowerCase(s: string): (r: string)
    ensures |r| == |s|
    ensures forall i :: 0 <= i < |r| ==> !('A' <= r[i] <= 'Z')
  {
    if s == [] then [] else [LowerChar(s[0])] + LowerCase(s[1..])
  }

  /** The string with every character passed through `UpperChar`. */
  function UpperCase(s: string): (r: string)
    ensures |r| == |s|
    ensures forall i :: 0 <= i < |r| ==> !('a' <= r[i] <= 'z')
  {
    if s == [] then [] else [UpperChar(s[0])] + UpperCase(s[1..])
  }

  /** Lower-casing keeps the length and maps each character on its own. */
  lemma {:induction false} LowerCaseAt(s: string)
    ensures |LowerCase(s)| == |s|
    ensures forall i :: 0 <= i < |s| ==> LowerCase(s)[i] == LowerChar(s[i])
  {
    if s != [] {
      LowerCaseAt(s[1..]);
      assert forall i :: 1 <= i < |s| ==> LowerCase(s)[i] == LowerCase(s[1..])[i - 1];
    }
  }

  /** Upper-casing keeps the length and maps each character on its own. */
  lemma {:induction false} UpperCaseAt(s: string)
    ensures |UpperCase(s)| == |s|
    ensures forall i :: 0 <= i < |s| ==> UpperCase(s)[i] == UpperChar(s[i])
  {
    if s != [] {
      UpperCaseAt(s[1..]);
      assert forall i :: 1 <= i < |s| ==> UpperCase(s)[i] == UpperCase(s[1..])[i - 1];
    }
  }

  lemma {:induction false} LowerCaseAppend(a: string, b: string)
    ensures LowerCase(a + b) == LowerCase(a) + LowerCase(b)
  {
    LowerCaseAt(a);
    LowerCaseAt(b);
    LowerCaseAt(a + b);
  }

  lemma {:induction false} UpperCaseAppend(a: string, b: string)
    ensures UpperCase(a + b) == UpperCase(a) + UpperCase(b)
  {
    UpperCaseAt(a);
    UpperCaseAt(b);
    UpperCaseAt(a + b);
  }

  /** Lower-casing is idempotent. */
  lemma {:induction false} LowerCaseIdempotent(s: string)
    ensures LowerCase(LowerCase(s)) == LowerCase(s)
  {
    LowerCaseAt(s);
    LowerCaseAt(LowerCase(s));
  }

  /** Upper-casing is idempotent. */
  lemma {:induction false} UpperCaseIdempotent(s: string)
    ensures UpperCase(UpperCase(s)) == UpperCase(s)
  {
    UpperCaseAt(s);
    UpperCaseAt(UpperCase(s));
  }

  /** Lower-casing an upper-cased string is lower-casing it, and the other way round. */
  lemma {:induction false} CaseAbsorbs(s: string)
    ensures LowerCase(UpperCase(s)) == LowerCase(s)
    ensures UpperCase(LowerCase(s)) == UpperCase(s)
  {
    UpperCaseAt(s);
    LowerCaseAt(s);
    LowerCaseAt(UpperCase(s));
    UpperCaseAt(LowerCase(s));
  }

  /** `ToLower`: copies the string and lower-cases each character in place. */
  method ToLower(s: string) returns (r: string)
    ensures r == LowerCase(s)
  {
    var result := new char[|s|](i requires 0 <= i < |s| => s[i]);
    for i := 0 to result.Length
      invariant forall k :: 0 <= k < i ==> result[k] == LowerChar(s[k])
      invariant forall k :: i <= k < result.Length ==> result[k] == s[k]
    {
      result[i] := LowerChar(result[i]);
    }
    LowerCaseAt(s);
    r := result[..];
  }

  /** `ToUpper`: copies the string and upper-cases each character in place. */
  method ToUpper(s: string) returns (r: string)
    ensures r == UpperCase(s)
  {
    var result := new char[|s|](i requires 0 <= i < |s| => s[i]);
    for i := 0 to result.Length
      invariant forall k :: 0 <= k < i ==> result[k] == UpperChar(s[k])
      invariant forall k :: i <= k < result.Length ==> result[k] == s[k]
    {
      result[i] := UpperChar(result[i]);
    }
    UpperCaseAt(s);
    r := result[..];
  }
}
