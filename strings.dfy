/**
 * The PHP and Laravel string helpers the export core relies on (`explode`, `implode`, `trim`,
 * `Str::before`, `Str::beforeLast`, `Str::afterLast`, `Str::endsWith`, `Str::kebab`,
 * `Str::ucfirst`), restricted to ASCII letters for case conversion.
 */
module Strings {

  /** `sep` occurs in `s` starting at index `i`. */
  predicate OccursAt(s: string, sep: string, i: nat) {
    i + |sep| <= |s| && s[i..i + |sep|] == sep
  }

  /** `sep` is a substring of `s` (`str_contains`). */
  predicate Contains(s: string, sep: string) {
    exists i | 0 <= i <= |s| :: OccursAt(s, sep, i)
  }

  lemma {:induction false} OccursInPrefix(s: string, sep: string, n: nat, j: nat)
    requires n <= |s|
    requires OccursAt(s[..n], sep, j)
    ensures OccursAt(s, sep, j)
  {
    assert s[..n][j..j + |sep|] == s[j..j + |sep|];
  }

  lemma {:induction false} OccursInSuffix(s: string, sep: string, n: nat, j: nat)
    requires n <= |s|
    requires OccursAt(s[n..], sep, j)
    ensures OccursAt(s, sep, n + j)
  {
    assert s[n..][j..j + |sep|] == s[n + j..n + j + |sep|];
  }

  /** Index of the first occurrence of `sep` in `s` at or after `from`, or -1 (PHP `strpos`). */
  function IndexFrom(s: string, sep: string, from: nat): (r: int)
    requires |sep| > 0
    ensures r == -1 || (from <= r && OccursAt(s, sep, r))
    ensures r == -1 ==> forall j: nat :: from <= j ==> !OccursAt(s, sep, j)
    ensures r >= 0 ==> forall j: nat :: from <= j < r ==> !OccursAt(s, sep, j)
    decreases |s| - from
  {
    if from + |sep| > |s| then -1
    else if s[from..from + |sep|] == sep then from
    else IndexFrom(s, sep, from + 1)
  }

  /** PHP `implode($sep, $parts)`. */
  function Implode(sep: string, parts: seq<string>): string {
    if |parts| == 0 then ""
    else if |parts| == 1 then parts[0]
    else parts[0] + sep + Implode(sep, parts[1..])
  }

  /**
   * PHP `explode($sep, $s)` for a non-empty separator (PHP raises an error for an empty one):
   * the pieces between successive occurrences of `sep`, scanning left to right.
   */
  function Explode(sep: string, s: string): (parts: seq<string>)
    requires |sep| > 0
    ensures |parts| >= 1
    ensures Implode(sep, parts) == s
    decreases |s|
  {
    var i := IndexFrom(s, sep, 0);
    if i < 0 then
      [s]
    else
      var rest := Explode(sep, s[i + |sep|..]);
      assert s == s[..i] + sep + s[i + |sep|..];
      assert ([s[..i]] + rest)[1..] == rest;
      [s[..i]] + rest
  }

  /** No piece `explode` returns contains the separator, and there is one piece exactly when `s` has none. */
  lemma {:induction false} ExplodePieces(sep: string, s: string)
    requires |sep| > 0
    ensures forall k :: 0 <= k < |Explode(sep, s)| ==> !Contains(Explode(sep, s)[k], sep)
    ensures |Explode(sep, s)| == 1 <==> !Contains(s, sep)
    decreases |s|
  {
    var i := IndexFrom(s, sep, 0);
    if i >= 0 {
      var head, tail := s[..i], s[i + |sep|..];
      ExplodePieces(sep, tail);
      assert !Contains(head, sep) by {
        forall j: nat | OccursAt(head, sep, j) ensures false {
          OccursInPrefix(s, sep, i, j);
        }
      }
      assert Contains(s, sep) by { assert OccursAt(s, sep, i); }
      assert Explode(sep, s) == [head] + Explode(sep, tail);
    }
  }

  /** Joining two non-empty runs of pieces equals joining each and gluing them with `sep`. */
  lemma {:induction false} ImplodeAppend(sep: string, a: seq<string>, b: seq<string>)
    requires |a| >= 1 && |b| >= 1
    ensures Implode(sep, a + b) == Implode(sep, a) + sep + Implode(sep, b)
  {
    if |a| == 1 {
      assert (a + b)[1..] == b;
    } else {
      assert (a + b)[1..] == a[1..] + b;
      ImplodeAppend(sep, a[1..], b);
    }
  }

  /** `str_contains($s, $c)` for a one-character needle is plain membership. */
  lemma {:induction false} ContainsChar(s: string, c: char)
    ensures Contains(s, [c]) <==> c in s
  {
    if c in s {
      var i :| 0 <= i < |s| && s[i] == c;
      assert s[i..i + 1] == [c];
      assert OccursAt(s, [c], i);
    }
    if Contains(s, [c]) {
      var i :| 0 <= i <= |s| && OccursAt(s, [c], i);
      assert i + 1 <= |s| && s[i..i + 1] == [c];
      assert s[i] == c;
    }
  }

  /** A one-character needle occurs at `j` exactly when that character is `s[j]`. */
  lemma {:induction false} OccursAtChar(s: string, c: char, j: nat)
    ensures OccursAt(s, [c], j) <==> j < |s| && s[j] == c
  {
    if j < |s| && s[j] == c {
      assert s[j..j + 1] == [c];
    }
    if OccursAt(s, [c], j) {
      assert s[j..j + 1][0] == s[j];
    }
  }

  /** The first piece of a join is where the joined string starts. */
  lemma {:induction false} ImplodeStartsWith(sep: string, parts: seq<string>)
    requires |parts| >= 1
    ensures StartsWith(Implode(sep, parts), parts[0])
  {
    if |parts| > 1 {
      var s := Implode(sep, parts);
      assert s == parts[0] + (sep + Implode(sep, parts[1..]));
      assert s[..|parts[0]|] == parts[0];
    }
  }

  /**
   * For a one-character separator, `explode` undoes `implode` of pieces that do not contain
   * the separator.
   */
  lemma {:induction false} ExplodeImplode(c: char, parts: seq<string>)
    requires |parts| >= 1
    requires forall k :: 0 <= k < |parts| ==> c !in parts[k]
    ensures Explode([c], Implode([c], parts)) == parts
    decreases |parts|
  {
    var s := Implode([c], parts);
    var p := parts[0];
    var r := IndexFrom(s, [c], 0);
    if |parts| == 1 {
      if r >= 0 {
        OccursAtChar(s, c, r);
        assert false;
      }
    } else {
      var tail := Implode([c], parts[1..]);
      assert s == p + [c] + tail;
      OccursAtChar(s, c, |p|);
      if r != |p| {
        if r >= 0 {
          OccursAtChar(s, c, r);
        }
        assert false;
      }
      assert s[..r] == p;
      assert s[r + 1..] == tail;
      ExplodeImplode(c, parts[1..]);
    }
  }

  /** `Str::before($s, $sep)`: the part before the first occurrence, or all of `s`. */
  function Before(s: string, sep: string): (r: string)
    requires |sep| > 0
    ensures r == Explode(sep, s)[0]
  {
    var i := IndexFrom(s, sep, 0);
    if i < 0 then s else s[..i]
  }

  /** PHP `trim`'s default character list: space, tab, newline, carriage return, NUL, vertical tab. */
  predicate IsTrimChar(c: char) {
    c == ' ' || c == '\t' || c == '\n' || c == '\r' || c == '\0' || c == '\U{000B}'
  }

  function TrimLeft(s: string): string {
    if s != [] && IsTrimChar(s[0]) then TrimLeft(s[1..]) else s
  }

  function TrimRight(s: string): string {
    if s != [] && IsTrimChar(s[|s| - 1]) then TrimRight(s[..|s| - 1]) else s
  }

  /** PHP `trim($s)`. */
  function Trim(s: string): string {
    TrimRight(TrimLeft(s))
  }

  predicate AllTrimChars(s: string) {
    forall i :: 0 <= i < |s| ==> IsTrimChar(s[i])
  }

  lemma {:induction false} TrimLeftEmpty(s: string)
    ensures TrimLeft(s) == "" <==> AllTrimChars(s)
    ensures TrimLeft(s) != "" ==> !IsTrimChar(TrimLeft(s)[0])
  {
    if s != [] && IsTrimChar(s[0]) {
      TrimLeftEmpty(s[1..]);
      assert AllTrimChars(s) <==> AllTrimChars(s[1..]) by {
        if AllTrimChars(s[1..]) {
          forall i | 0 <= i < |s| ensures IsTrimChar(s[i]) {
            if i > 0 { assert s[i] == s[1..][i - 1]; }
          }
        }
      }
    }
  }

  lemma {:induction false} TrimRightEmpty(s: string)
    ensures TrimRight(s) == "" <==> AllTrimChars(s)
  {
    if s != [] && IsTrimChar(s[|s| - 1]) {
      TrimRightEmpty(s[..|s| - 1]);
      assert AllTrimChars(s) <==> AllTrimChars(s[..|s| - 1]) by {
        if AllTrimChars(s[..|s| - 1]) {
          forall i | 0 <= i < |s| ensures IsTrimChar(s[i]) {
            if i < |s| - 1 { assert s[i] == s[..|s| - 1][i]; }
          }
        }
      }
    }
  }

  /** A string trims to nothing exactly when every character is one `trim` strips. */
  lemma {:induction false} TrimEmptyIff(s: string)
    ensures Trim(s) == "" <==> AllTrimChars(s)
  {
    TrimLeftEmpty(s);
    TrimRightEmpty(TrimLeft(s));
  }

  /** `$s ?: …` and `if ($s)`: a PHP string is falsy exactly when it is "" or "0". */
  predicate Truthy(s: string) {
    s != "" && s != "0"
  }

  /** `Str::endsWith($s, $suffix)`: Laravel answers false for an empty suffix. */
  predicate EndsWith(s: string, suffix: string) {
    |suffix| > 0 && |suffix| <= |s| && s[|s| - |suffix|..] == suffix
  }

  predicate StartsWith(s: string, prefix: string) {
    |prefix| <= |s| && s[..|prefix|] == prefix
  }

  /** A string starting with `a + b` continues with `b` after `a`. */
  lemma {:induction false} StartsWithConcat(p: string, a: string, b: string)
    requires StartsWith(p, a + b)
    ensures StartsWith(p[|a|..], b)
  {
    assert p[|a|..][..|b|] == p[..|a| + |b|][|a|..] == (a + b)[|a|..] == b;
  }

  /** Index of the last occurrence of `c` in `s`, or -1 (PHP `strrpos`). */
  function LastIndexOf(s: string, c: char): (r: int)
    ensures r == -1 ==> c !in s
    ensures r >= 0 ==> r < |s| && s[r] == c && c !in s[r + 1..]
  {
    if s == [] then -1
    else if s[|s| - 1] == c then |s| - 1
    else
      var init := s[..|s| - 1];
      var r := LastIndexOf(init, c);
      assert s == init + [s[|s| - 1]];
      assert r >= 0 ==> s[r + 1..] == init[r + 1..] + [s[|s| - 1]];
      r
  }

  /** The last `c` of `a + [c] + b` is the one between them when `b` holds none. */
  lemma {:induction false} LastIndexOfSplit(a: string, c: char, b: string)
    requires c !in b
    ensures LastIndexOf(a + [c] + b, c) == |a|
    decreases |b|
  {
    var s := a + [c] + b;
    if b == [] {
      assert s[|s| - 1] == c;
    } else {
      var shorter := b[..|b| - 1];
      assert s[..|s| - 1] == a + [c] + shorter;
      assert s[|s| - 1] == b[|b| - 1];
      LastIndexOfSplit(a, c, shorter);
    }
  }

  /** `Str::beforeLast($s, $c)`: the part before the last `c`, or all of `s`. */
  function BeforeLast(s: string, c: char): string {
    var i := LastIndexOf(s, c);
    if i < 0 then s else s[..i]
  }

  /** `Str::afterLast($s, $c)`: the part after the last `c`, or all of `s`. */
  function AfterLast(s: string, c: char): string {
    var i := LastIndexOf(s, c);
    if i < 0 then s else s[i + 1..]
  }

  /** The decimal digits of `n`, as PHP prints an integer. */
  function NatToString(n: nat): (r: string)
    ensures |r| >= 1
    ensures forall i :: 0 <= i < |r| ==> '0' <= r[i] <= '9'
    ensures |r| == 1 <==> n < 10
  {
    if n < 10 then [DigitChar(n)] else NatToString(n / 10) + [DigitChar(n % 10)]
  }

  function DigitChar(d: nat): (c: char)
    requires d < 10
    ensures '0' <= c <= '9'
  {
    ('0' as int + d) as char
  }

  /** Different numbers give different decimal strings. */
  lemma {:induction false} NatToStringInjective(a: nat, b: nat)
    requires NatToString(a) == NatToString(b)
    ensures a == b
  {
    if a >= 10 && b >= 10 {
      var sa, sb := NatToString(a), NatToString(b);
      assert sa[..|sa| - 1] == NatToString(a / 10);
      assert sb[..|sb| - 1] == NatToString(b / 10);
      NatToStringInjective(a / 10, b / 10);
      assert sa[|sa| - 1] == sb[|sb| - 1];
    }
  }

  // ASCII case conversion; PHP's multibyte case tables are not modelled.

  predicate IsUpper(c: char) { 'A' <= c <= 'Z' }

  predicate IsLower(c: char) { 'a' <= c <= 'z' }

  function ToUpper(c: char): char {
    if IsLower(c) then (c as int - 32) as char else c
  }

  function ToLower(c: char): char {
    if IsUpper(c) then (c as int + 32) as char else c
  }

  function Lower(s: string): (r: string)
    ensures |r| == |s| && forall i :: 0 <= i < |s| ==> r[i] == ToLower(s[i])
  {
    seq(|s|, i requires 0 <= i < |s| => ToLower(s[i]))
  }

  /** `Str::ucfirst`. */
  function UcFirst(s: string): (r: string)
    ensures |r| == |s| && (s != "" ==> r[0] == ToUpper(s[0]) && r[1..] == s[1..])
  {
    if s == "" then s else [ToUpper(s[0])] + s[1..]
  }

  /** The delimiters of PHP `ucwords`, which are also the ASCII characters PCRE's `\s` matches. */
  predicate IsSpace(c: char) {
    c == ' ' || c == '\t' || c == '\r' || c == '\n' || c == '\U{000C}' || c == '\U{000B}'
  }

  /** PHP `ctype_lower`: non-empty and only lower-case letters. */
  predicate CtypeLower(s: string) {
    |s| > 0 && forall i :: 0 <= i < |s| ==> IsLower(s[i])
  }

  function UcWordsFrom(s: string, afterDelimiter: bool): (r: string)
    ensures |r| == |s|
  {
    if s == [] then []
    else [if afterDelimiter then ToUpper(s[0]) else s[0]] + UcWordsFrom(s[1..], IsSpace(s[0]))
  }

  /** PHP `ucwords`: upper-case the first character and every character after a delimiter. */
  function UcWords(s: string): string {
    UcWordsFrom(s, true)
  }

  /** `preg_replace('/\s+/u', '', $s)`. */
  function RemoveSpaces(s: string): (r: string)
    ensures forall i :: 0 <= i < |r| ==> !IsSpace(r[i])
  {
    if s == [] then []
    else (if IsSpace(s[0]) then [] else [s[0]]) + RemoveSpaces(s[1..])
  }

  function MarkUpper(s: string): string {
    if s == [] then []
    else (if IsUpper(s[0]) then ['-', s[0]] else [s[0]]) + MarkUpper(s[1..])
  }

  /** `preg_replace('/(.)(?=[A-Z])/u', '$1-', $s)`: a hyphen before every upper-case letter but the first character. */
  function Hyphenate(s: string): string {
    if s == [] then [] else [s[0]] + MarkUpper(s[1..])
  }

  /** `Str::kebab`, i.e. `Str::snake($s, '-')`. */
  function Kebab(s: string): string {
    if CtypeLower(s) then s else Lower(Hyphenate(RemoveSpaces(UcWords(s))))
  }

  lemma {:induction false} UcWordsNoSpaces(s: string, b: bool)
    requires forall i :: 0 <= i < |s| ==> !IsSpace(s[i])
    ensures UcWordsFrom(s, b) == if s == [] then [] else [if b then ToUpper(s[0]) else s[0]] + s[1..]
  {
    if s != [] {
      UcWordsNoSpaces(s[1..], false);
    }
  }

  lemma {:induction false} RemoveSpacesNone(s: string)
    requires forall i :: 0 <= i < |s| ==> !IsSpace(s[i])
    ensures RemoveSpaces(s) == s
  {
    if s != [] {
      RemoveSpacesNone(s[1..]);
    }
  }

  lemma {:induction false} MarkUpperNone(s: string)
    requires forall i :: 0 <= i < |s| ==> !IsUpper(s[i])
    ensures MarkUpper(s) == s
  {
    if s != [] {
      MarkUpperNone(s[1..]);
    }
  }

  /**
   * `Str::kebab` leaves alone a string that has no upper-case letter and no white space
   * (such as `first_name`): both of its branches give the string back.
   */
  lemma {:induction false} KebabIdentity(s: string)
    requires forall i :: 0 <= i < |s| ==> !IsUpper(s[i]) && !IsSpace(s[i])
    ensures Kebab(s) == s
  {
    if !CtypeLower(s) && s != [] {
      UcWordsNoSpaces(s, true);
      var u := [ToUpper(s[0])] + s[1..];
      assert UcWords(s) == u;
      RemoveSpacesNone(u);
      MarkUpperNone(s[1..]);
      assert u[1..] == s[1..];
      assert Hyphenate(u) == u;
      var l := Lower(u);
      assert forall i :: 0 <= i < |s| ==> l[i] == s[i];
    }
  }
}
