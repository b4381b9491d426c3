/** Values and JavaScript string operations shared by the editing modes. */
module Common {

  /** A value that may be absent: JavaScript's `undefined`/`null` or a missing search hit. */
  datatype Option<T> = None | Some(value: T)

  /** `a` is `b` with some elements left out, the rest in their order. */
  predicate IsSubsequence<T(==)>(a: seq<T>, b: seq<T>) {
    a == [] || (b != [] && ((a[0] == b[0] && IsSubsequence(a[1..], b[1..])) || IsSubsequence(a, b[1..])))
  }

  /** The characters that `String.prototype.trim` strips and that the regular-expression
      class `\s` matches: the ECMAScript WhiteSpace and LineTerminator characters. */
  predicate IsWhitespace(c: char) {
    c == ' ' || c == '\t' || c == '\n' || c == '\r' || c == '\U{0B}' || c == '\U{0C}'
    || c == '\U{A0}' || c == '\U{1680}' || ('\U{2000}' <= c <= '\U{200A}')
    || c == '\U{2028}' || c == '\U{2029}' || c == '\U{202F}' || c == '\U{205F}'
    || c == '\U{3000}' || c == '\U{FEFF}'
  }

  /** A string whose `trim()` is the empty string. */
  predicate IsBlank(s: string) {
    forall i :: 0 <= i < |s| ==> IsWhitespace(s[i])
  }

  /** `trimStart()`: drops the leading run of white space, and nothing else. */
  function TrimStart(s: string): (r: string)
    ensures |r| <= |s| && r == s[|s| - |r|..]
    ensures IsBlank(s[..|s| - |r|])
    ensures r == [] || !IsWhitespace(r[0])
    ensures s != [] && IsWhitespace(s[0]) ==> |r| < |s|
  {
    if s != [] && IsWhitespace(s[0]) then TrimStart(s[1..]) else s
  }

  /** Trimming the front of `a + b`: a blank `a` is dropped whole and the trim goes on into
      `b`; otherwise only the front of `a` is trimmed. */
  lemma {:induction false} TrimStartAppend(a: string, b: string)
    ensures IsBlank(a) ==> TrimStart(a + b) == TrimStart(b)
    ensures !IsBlank(a) ==> TrimStart(a + b) == TrimStart(a) + b
    decreases |a|
  {
    if a == [] {
      assert a + b == b;
    } else if IsWhitespace(a[0]) {
      assert (a + b)[0] == a[0] && (a + b)[1..] == a[1..] + b;
      BlankAfterBlank(a);
      TrimStartAppend(a[1..], b);
    } else {
      assert (a + b)[0] == a[0];
    }
  }

  /** A string that starts with white space is blank exactly when the rest of it is. */
  lemma BlankAfterBlank(a: string)
    requires a != [] && IsWhitespace(a[0])
    ensures IsBlank(a) <==> IsBlank(a[1..])
  {
    if IsBlank(a[1..]) {
      forall i | 0 <= i < |a| ensures IsWhitespace(a[i]) {
        if i > 0 { assert a[i] == a[1..][i - 1]; }
      }
    }
  }

  /** `trimEnd()`: drops the trailing run of white space, and nothing else. */
  function TrimEnd(s: string): (r: string)
    ensures |r| <= |s| && r == s[..|r|]
    ensures IsBlank(s[|r|..])
    ensures r == [] || !IsWhitespace(r[|r| - 1])
  {
    if s != [] && IsWhitespace(s[|s| - 1]) then TrimEnd(s[..|s| - 1]) else s
  }

  /** `trim()`. */
  function Trim(s: string): string {
    TrimEnd(TrimStart(s))
  }

  /** The part `trim()` keeps: it starts after a blank prefix and ends before a blank
      suffix. */
  lemma TrimBounds(s: string) returns (a: nat, b: nat)
    ensures a <= b <= |s| && Trim(s) == s[a..b] && IsBlank(s[..a]) && IsBlank(s[b..])
    ensures Trim(s) == [] ==> a == |s|
  {
    var u := TrimStart(s);
    a := |s| - |u|;
    var r := TrimEnd(u);
    b := a + |r|;
    assert r == s[a..b];
    assert s[b..] == u[|r|..];
    if r == [] {
      assert IsBlank(u);
    }
  }

  /** `trim()` is empty exactly for a blank string. */
  lemma TrimEmptyIffBlank(s: string)
    ensures Trim(s) == [] <==> IsBlank(s)
  {
    var u := TrimStart(s);
    var a := |s| - |u|;
    if u == [] {
      assert s[..a] == s;
    } else {
      assert u[0] == s[a];
      assert TrimEnd(u)[0] == u[0];
    }
  }

  /** A non-empty `trim()` starts and ends with a character that is not white space. */
  lemma TrimEndsNotBlank(s: string)
    ensures Trim(s) == [] || (!IsWhitespace(Trim(s)[0]) && !IsWhitespace(Trim(s)[|Trim(s)| - 1]))
  {
    var u := TrimStart(s);
    if Trim(s) != [] {
      assert Trim(s)[0] == u[0];
    }
  }

  /** `trim()` keeps a contiguous middle part of the string, cuts only white space, and
      yields the empty string exactly for blank input. */
  lemma TrimIsBlankCut(s: string)
    ensures exists a, b :: 0 <= a <= b <= |s| && Trim(s) == s[a..b]
                           && IsBlank(s[..a]) && IsBlank(s[b..])
    ensures Trim(s) == [] <==> IsBlank(s)
    ensures Trim(s) == [] || (!IsWhitespace(Trim(s)[0]) && !IsWhitespace(Trim(s)[|Trim(s)| - 1]))
  {
    var a, b := TrimBounds(s);
    TrimEmptyIffBlank(s);
    TrimEndsNotBlank(s);
  }

  /** The lower-case form of one character; only the ASCII letters `A`-`Z` are mapped. */
  function LowerChar(c: char): (r: char)
    ensures 'A' <= c <= 'Z' ==> 'a' <= r <= 'z' && r as int == c as int + 32
    ensures !('A' <= c <= 'Z') ==> r == c
  {
    if 'A' <= c <= 'Z' then (c as int + 32) as char else c
  }

  /** `toLowerCase()`, restricted to the ASCII letters. */
  function ToLower(s: string): (r: string)
    ensures |r| == |s|
    ensures forall i :: 0 <= i < |s| ==> r[i] == LowerChar(s[i])
  {
    seq(|s|, i requires 0 <= i < |s| => LowerChar(s[i]))
  }

  /** Lower-casing twice is lower-casing once. */
  lemma ToLowerIdempotent(s: string)
    ensures ToLower(ToLower(s)) == ToLower(s)
  {
    var once := ToLower(s);
    var twice := ToLower(once);
    forall i | 0 <= i < |s| ensures twice[i] == once[i] {
      assert !('A' <= once[i] <= 'Z');
    }
  }

  /** `sub` stands in `s` starting at index `i`. */
  predicate OccursAt(s: string, sub: string, i: int) {
    0 <= i <= |s| - |sub| && s[i..i + |sub|] == sub
  }

  /** `s.includes(sub)`, searched from the left. */
  predicate Contains(s: string, sub: string) {
    |sub| <= |s| && (s[..|sub|] == sub || Contains(s[1..], sub))
  }

  /** The search finds `sub` exactly when `sub` stands somewhere in `s`. */
  lemma {:induction false} ContainsIffOccurs(s: string, sub: string)
    ensures Contains(s, sub) <==> exists i :: OccursAt(s, sub, i)
  {
    if |sub| <= |s| && s[..|sub|] != sub {
      ContainsIffOccurs(s[1..], sub);
      if exists i :: OccursAt(s, sub, i) {
        var i :| OccursAt(s, sub, i);
        assert i != 0;
        assert s[1..][i - 1..i - 1 + |sub|] == s[i..i + |sub|];
        assert OccursAt(s[1..], sub, i - 1);
      }
      if Contains(s[1..], sub) {
        var j :| OccursAt(s[1..], sub, j);
        assert s[j + 1..j + 1 + |sub|] == s[1..][j..j + |sub|];
        assert OccursAt(s, sub, j + 1);
      }
    } else if |sub| <= |s| {
      assert OccursAt(s, sub, 0);
    }
  }

  /** Every string contains the empty string. */
  lemma ContainsEmpty(s: string)
    ensures Contains(s, [])
  {
    assert s[..0] == [];
  }
}
