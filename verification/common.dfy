/** Values and string operations shared by the server modules: an optional
    value, the JavaScript string methods the code relies on (toLowerCase,
    toUpperCase, trim, split, includes) and the order-preserving
    de-duplication that both the batch geocoder and the tracking handler use. */
module Common {

  datatype Option<+T> = None | Some(value: T)

  function MapGet<K, V>(m: map<K, V>, k: K): (r: Option<V>)
    ensures r.Some? <==> k in m
    ensures r.Some? ==> r.value == m[k]
  {
    if k in m then Some(m[k]) else None
  }

  // ---------------------------------------------------------------------
  // Characters

  /** The ECMAScript WhiteSpace and LineTerminator code points: exactly what
      String.prototype.trim strips and what the regular-expression class \s
      matches. */
  predicate IsJsSpace(c: char)
  {
    || c == ' ' || c == '\t' || c == '\n' || c == '\U{000B}' || c == '\U{000C}' || c == '\r'
    || c == '\U{00A0}' || c == '\U{1680}' || ('\U{2000}' <= c <= '\U{200A}')
    || c == '\U{2028}' || c == '\U{2029}' || c == '\U{202F}' || c == '\U{205F}'
    || c == '\U{3000}' || c == '\U{FEFF}'
  }

  predicate IsAsciiLetterOrDigit(c: char)
  {
    ('a' <= c <= 'z') || ('A' <= c <= 'Z') || ('0' <= c <= '9')
  }

  function LowerChar(c: char): (d: char)
    ensures 'A' <= c <= 'Z' ==> 'a' <= d <= 'z'
    ensures !('A' <= c <= 'Z') ==> d == c
  {
    if 'A' <= c <= 'Z' then (c as int + 32) as char else c
  }

  function UpperChar(c: char): (d: char)
    ensures 'a' <= c <= 'z' ==> 'A' <= d <= 'Z'
    ensures !('a' <= c <= 'z') ==> d == c
  {
    if 'a' <= c <= 'z' then (c as int - 32) as char else c
  }

  // ---------------------------------------------------------------------
  // Strings

  /** String.prototype.toLowerCase, on the ASCII letters. */
  function ToLower(s: string): (r: string)
    ensures |r| == |s|
    ensures forall i :: 0 <= i < |s| ==> r[i] == LowerChar(s[i])
  {
    if s == [] then [] else [LowerChar(s[0])] + ToLower(s[1..])
  }

  lemma ToLowerHasNoUpper(s: string)
    ensures forall i :: 0 <= i < |ToLower(s)| ==> !('A' <= ToLower(s)[i] <= 'Z')
  {
    forall i | 0 <= i < |s| ensures !('A' <= ToLower(s)[i] <= 'Z') {
      assert ToLower(s)[i] == LowerChar(s[i]);
    }
  }

  /** ToLower is determined character by character. */
  lemma ToLowerPointwise(s: string, t: string)
    requires |s| == |t| && forall i :: 0 <= i < |s| ==> LowerChar(s[i]) == t[i]
    ensures ToLower(s) == t
  {
  }

  /** String.prototype.toUpperCase, on the ASCII letters. */
  function ToUpper(s: string): (r: string)
    ensures |r| == |s|
    ensures forall i :: 0 <= i < |s| ==> r[i] == UpperChar(s[i])
  {
    if s == [] then [] else [UpperChar(s[0])] + ToUpper(s[1..])
  }

  function TrimStart(s: string): (r: string)
    ensures |r| <= |s| && r == s[|s| - |r|..]
    ensures forall i :: 0 <= i < |s| - |r| ==> IsJsSpace(s[i])
    ensures r == [] || !IsJsSpace(r[0])
  {
    if s != [] && IsJsSpace(s[0]) then
      var r := TrimStart(s[1..]);
      assert s[1..][|s| - 1 - |r|..] == s[|s| - |r|..];
      assert forall i :: 1 <= i < |s| - |r| ==> s[i] == s[1..][i - 1];
      r
    else s
  }

  function TrimEnd(s: string): (r: string)
    ensures |r| <= |s| && r == s[..|r|]
    ensures forall i :: |r| <= i < |s| ==> IsJsSpace(s[i])
    ensures r == [] || !IsJsSpace(r[|r| - 1])
  {
    if s != [] && IsJsSpace(s[|s| - 1]) then
      var r := TrimEnd(s[..|s| - 1]);
      assert s[..|s| - 1][..|r|] == s[..|r|];
      assert forall i :: |r| <= i < |s| - 1 ==> s[i] == s[..|s| - 1][i];
      r
    else s
  }

  /** Neither starting nor ending with white space, as every trimmed string. */
  predicate Unpadded(s: string)
  {
    s == [] || (!IsJsSpace(s[0]) && !IsJsSpace(s[|s| - 1]))
  }

  /** `r` is the infix of `s` starting at `i` with only white space around it. */
  predicate InfixAmidSpace(s: string, i: int, r: string)
  {
    && 0 <= i <= |s| - |r| && r == s[i..i + |r|]
    && (forall k :: 0 <= k < i ==> IsJsSpace(s[k]))
    && (forall k :: i + |r| <= k < |s| ==> IsJsSpace(s[k]))
  }

  /** String.prototype.trim: `s` with its leading and trailing white space
      removed (TrimSpec). */
  function Trim(s: string): (r: string)
    ensures |r| <= |s| && Unpadded(r)
  {
    TrimEnd(TrimStart(s))
  }

  /** Trim removes exactly the white space at both ends: what remains is
      the infix of `s` with only white space around it. */
  lemma TrimSpec(s: string)
    ensures exists i :: InfixAmidSpace(s, i, Trim(s))
  {
    var i := TrimOffset(s);
    assert InfixAmidSpace(s, i, Trim(s));
  }

  /** Where in `s` its trim starts. */
  lemma TrimOffset(s: string) returns (i: nat)
    ensures i + |Trim(s)| <= |s| && Trim(s) == s[i..i + |Trim(s)|]
    ensures forall k :: 0 <= k < i ==> IsJsSpace(s[k])
    ensures forall k :: i + |Trim(s)| <= k < |s| ==> IsJsSpace(s[k])
  {
    var t := TrimStart(s);
    var r := TrimEnd(t);
    i := |s| - |t|;
    assert Trim(s) == r;
    SliceOfSuffix(s, i, |r|);
    forall k | i + |r| <= k < |s| ensures IsJsSpace(s[k]) {
      assert s[k] == t[k - i];
    }
  }

  lemma SliceOfSuffix<T>(s: seq<T>, i: nat, n: nat)
    requires i + n <= |s|
    ensures s[i..][..n] == s[i..i + n]
  {
  }

  /** A string that neither starts nor ends with white space is its own trim
      (and, by Trim's contract, only such a string is). */
  lemma TrimUnpadded(t: string)
    requires Unpadded(t)
    ensures Trim(t) == t
  {
    assert TrimStart(t) == t;
    assert TrimEnd(t) == t;
  }

  lemma ConcatAssoc<T>(a: seq<T>, b: seq<T>, c: seq<T>)
    ensures a + b + c == a + (b + c)
  {
  }

  lemma TakeNext<T>(s: seq<T>, i: nat)
    requires i < |s|
    ensures s[..i + 1] == s[..i] + [s[i]]
  {
  }

  lemma DropHead<T>(x: T, a: seq<T>, b: seq<T>)
    ensures ([x] + a + b)[1..] == a + b
  {
  }

  /** String.prototype.includes: `needle` occurs in `hay` at some position. */
  predicate Contains(hay: string, needle: string)
  {
    exists i | 0 <= i <= |hay| - |needle| :: OccursAt(hay, needle, i)
  }

  predicate OccursAt(hay: string, needle: string, i: int)
  {
    0 <= i <= |hay| - |needle| && hay[i..i + |needle|] == needle
  }

  lemma ContainsSelf(s: string)
    ensures Contains(s, s)
  {
    assert OccursAt(s, s, 0);
  }

  lemma ContainsEmpty(s: string)
    ensures Contains(s, "")
  {
    assert OccursAt(s, "", 0);
  }

  /** String.prototype.split with a one-character separator: one more piece
      than there are separators, pieces possibly empty. */
  function Split(s: string, sep: char): (parts: seq<string>)
    ensures |parts| >= 1
    ensures forall i :: 0 <= i < |parts| ==> sep !in parts[i]
  {
    if s == [] then [""]
    else
      var rest := Split(s[1..], sep);
      if s[0] == sep then [""] + rest else [[s[0]] + rest[0]] + rest[1..]
  }

  /** The pieces joined back with the separator give the original string. */
  lemma {:induction false} SplitJoin(s: string, sep: char)
    ensures Join(Split(s, sep), [sep]) == s
  {
    if s != [] {
      var rest := Split(s[1..], sep);
      SplitJoin(s[1..], sep);
      if s[0] == sep {
        assert Split(s, sep) == [""] + rest;
        assert Join([""] + rest, [sep]) == "" + [sep] + Join(rest, [sep]);
      } else {
        assert Split(s, sep) == [[s[0]] + rest[0]] + rest[1..];
        if |rest| == 1 {
          assert rest == [rest[0]];
        } else {
          assert rest == [rest[0]] + rest[1..];
          assert Join(rest, [sep]) == rest[0] + [sep] + Join(rest[1..], [sep]);
        }
      }
    }
  }

  /** Array.prototype.join. */
  function Join(parts: seq<string>, glue: string): string
  {
    if parts == [] then ""
    else if |parts| == 1 then parts[0]
    else parts[0] + glue + Join(parts[1..], glue)
  }

  /** The characters at which `split(/[\s,]+/)` cuts a string. */
  predicate IsWordBreak(c: char)
  {
    IsJsSpace(c) || c == ','
  }

  /** `s.split(/[\s,]+/)[0]`: the part of `s` before its first white-space or
      comma character (empty when `s` starts with one). */
  function FirstWord(s: string): (w: string)
    ensures |w| <= |s| && w == s[..|w|]
    ensures forall i :: 0 <= i < |w| ==> !IsWordBreak(w[i])
    ensures |w| < |s| ==> IsWordBreak(s[|w|])
  {
    if s == [] || IsWordBreak(s[0]) then "" else [s[0]] + FirstWord(s[1..])
  }

  /** Decimal rendering of a natural number, as a template literal prints it. */
  function NatToString(n: nat): (r: string)
    ensures |r| >= 1
    ensures forall i :: 0 <= i < |r| ==> '0' <= r[i] <= '9'
    decreases n
  {
    var d := [('0' as int + n % 10) as char];
    if n < 10 then d else NatToString(n / 10) + d
  }

  /** The number a string of decimal digits denotes, read left to right. */
  function DecimalValue(s: string): (v: nat)
    requires forall i :: 0 <= i < |s| ==> '0' <= s[i] <= '9'
    ensures s == [] ==> v == 0
  {
    if s == [] then 0
    else DecimalValue(s[..|s| - 1]) * 10 + (s[|s| - 1] as int - '0' as int)
  }

  /** NatToString spells n in decimal: its digits denote n, and it has no
      leading zero. */
  lemma {:induction false} NatToStringValue(n: nat)
    ensures DecimalValue(NatToString(n)) == n
    ensures |NatToString(n)| > 1 || n > 0 ==> NatToString(n)[0] != '0'
    decreases n
  {
    var r := NatToString(n);
    if n >= 10 {
      var p := NatToString(n / 10);
      NatToStringValue(n / 10);
      assert r == p + [r[|r| - 1]];
      assert r[..|r| - 1] == p;
      assert r[0] == p[0];
    }
  }

  // ---------------------------------------------------------------------
  // Order-preserving de-duplication

  /** The position of the first occurrence of `x` in `xs`. */
  function FirstIndex<T(==)>(xs: seq<T>, x: T): (i: nat)
    requires x in xs
    ensures i < |xs| && xs[i] == x
    ensures forall j :: 0 <= j < i ==> xs[j] != x
  {
    if xs[0] == x then 0 else 1 + FirstIndex(xs[1..], x)
  }

  lemma {:induction false} FirstIndexAppend<T>(xs: seq<T>, y: T, x: T)
    requires x in xs
    ensures FirstIndex(xs + [y], x) == FirstIndex(xs, x)
  {
    if xs[0] != x {
      assert (xs + [y])[1..] == xs[1..] + [y];
      FirstIndexAppend(xs[1..], y, x);
    }
  }

  /** `[...new Set(xs.filter(Boolean))]`, and equally the `push`-unless-
      `includes` loop of the tracking handler: the non-empty strings of `xs`,
      each once, in the order of their first occurrence. */
  function DistinctNonEmpty(xs: seq<string>): (r: seq<string>)
    ensures forall i, j :: 0 <= i < j < |r| ==> r[i] != r[j]
    ensures forall x :: x in r <==> x != "" && x in xs
    ensures |r| <= |xs|
    decreases |xs|
  {
    if xs == [] then []
    else
      var prefix := xs[..|xs| - 1];
      var last := xs[|xs| - 1];
      var p := DistinctNonEmpty(prefix);
      assert xs == prefix + [last];
      if last != "" && last !in p then p + [last] else p
  }

  /** The kept strings come in the order of their first occurrence. */
  lemma {:induction false} DistinctNonEmptyOrder(xs: seq<string>)
    ensures forall i, j :: 0 <= i < j < |DistinctNonEmpty(xs)| ==>
              FirstIndex(xs, DistinctNonEmpty(xs)[i]) < FirstIndex(xs, DistinctNonEmpty(xs)[j])
    decreases |xs|
  {
    if xs != [] {
      var prefix := xs[..|xs| - 1];
      var last := xs[|xs| - 1];
      var p := DistinctNonEmpty(prefix);
      assert xs == prefix + [last];
      DistinctNonEmptyOrder(prefix);
      forall x | x in p ensures FirstIndex(xs, x) == FirstIndex(prefix, x) < |prefix| {
        FirstIndexAppend(prefix, last, x);
      }
      if last != "" && last !in p {
        var r := p + [last];
        assert DistinctNonEmpty(xs) == r;
        var k := FirstIndex(xs, last);
        assert k == |prefix|;
        forall i, j | 0 <= i < j < |r| ensures FirstIndex(xs, r[i]) < FirstIndex(xs, r[j]) {
          assert r[i] == p[i] && p[i] in p;
          if j == |p| {
            assert r[j] == last;
          } else {
            assert r[j] == p[j] && p[j] in p;
            assert FirstIndex(prefix, p[i]) < FirstIndex(prefix, p[j]);
          }
        }
      }
    }
  }

  /** De-duplicating a list with one more element: the element is added at
      the end exactly when it is non-empty and new. */
  lemma DistinctNonEmptySnoc(xs: seq<string>, x: string)
    ensures DistinctNonEmpty(xs + [x])
         == if x != "" && x !in DistinctNonEmpty(xs) then DistinctNonEmpty(xs) + [x] else DistinctNonEmpty(xs)
  {
    assert (xs + [x])[..|xs|] == xs;
  }

  /** De-duplicating twice changes nothing. */
  lemma {:induction false} DistinctNonEmptyIdempotent(xs: seq<string>)
    ensures DistinctNonEmpty(DistinctNonEmpty(xs)) == DistinctNonEmpty(xs)
  {
    DistinctOfDistinct(DistinctNonEmpty(xs));
  }

  lemma {:induction false} DistinctOfDistinct(ys: seq<string>)
    requires forall i, j :: 0 <= i < j < |ys| ==> ys[i] != ys[j]
    requires "" !in ys
    ensures DistinctNonEmpty(ys) == ys
    decreases |ys|
  {
    if ys != [] {
      var prefix := ys[..|ys| - 1];
      DistinctOfDistinct(prefix);
      assert ys == prefix + [ys[|ys| - 1]];
    }
  }
}
