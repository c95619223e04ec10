/**
 * Small building blocks shared by the client and the server model:
 * optional values, results, and the sequence operations that JavaScript's
 * `Array.prototype.filter`/`find` and Java's stream `filter`/`count`/`limit`
 * perform.
 */
module Common {

  datatype Option<+T> = None | Some(value: T)

  datatype Result<+T, +E> = Ok(value: T) | Err(error: E)

  /** The elements of `s` that satisfy `p`, in their original order. */
  function Filter<T(!new)>(s: seq<T>, p: T -> bool): (r: seq<T>)
    ensures |r| <= |s|
    ensures forall i :: 0 <= i < |r| ==> p(r[i])
    ensures forall x :: multiset(r)[x] == if p(x) then multiset(s)[x] else 0
  {
    if s == [] then []
    else
      assert s == [s[0]] + s[1..];
      (if p(s[0]) then [s[0]] else []) + Filter(s[1..], p)
  }

  /** An element is kept exactly when it occurs and passes. */
  lemma FilterMembership<T(!new)>(s: seq<T>, p: T -> bool, x: T)
    ensures x in Filter(s, p) <==> x in s && p(x)
  {
    assert multiset(Filter(s, p))[x] == if p(x) then multiset(s)[x] else 0;
  }

  /** Filtering commutes with concatenation: relative order is kept. */
  lemma {:induction false} FilterAppend<T(!new)>(a: seq<T>, b: seq<T>, p: T -> bool)
    ensures Filter(a + b, p) == Filter(a, p) + Filter(b, p)
  {
    if a == [] {
      assert a + b == b;
    } else {
      assert (a + b)[1..] == a[1..] + b;
      FilterAppend(a[1..], b, p);
    }
  }

  /** Filtering keeps the sequence exactly when every element passes. */
  lemma {:induction false} FilterAll<T(!new)>(s: seq<T>, p: T -> bool)
    ensures Filter(s, p) == s <==> forall i :: 0 <= i < |s| ==> p(s[i])
  {
    if s != [] {
      FilterAll(s[1..], p);
      if !p(s[0]) {
        // the result is too short to be s
        assert |Filter(s[1..], p)| <= |s| - 1;
      }
    }
  }

  /** Number of elements of `s` satisfying `p` (Java `filter(...).count()`). */
  function Count<T(!new)>(s: seq<T>, p: T -> bool): (n: nat)
    ensures n <= |s|
  {
    |Filter(s, p)|
  }

  /** Count over a concatenation is the sum of the counts. */
  lemma CountAppend<T(!new)>(a: seq<T>, b: seq<T>, p: T -> bool)
    ensures Count(a + b, p) == Count(a, p) + Count(b, p)
  {
    FilterAppend(a, b, p);
  }

  /** Index of the first element satisfying `p`, if any (JavaScript `findIndex`). */
  function FindFirst<T>(s: seq<T>, p: T -> bool): (r: Option<nat>)
    ensures r.Some? ==> r.value < |s| && p(s[r.value])
    ensures r.Some? ==> forall j :: 0 <= j < r.value ==> !p(s[j])
    ensures r.None? ==> forall j :: 0 <= j < |s| ==> !p(s[j])
  {
    if s == [] then None
    else if p(s[0]) then Some(0)
    else match FindFirst(s[1..], p)
      case None => None
      case Some(i) => Some(i + 1)
  }

  /** The first element satisfying `p`, if any (JavaScript `find`, Java `findFirst`). */
  function Find<T(!new)>(s: seq<T>, p: T -> bool): (r: Option<T>)
    ensures r.Some? ==> r.value in s && p(r.value)
    ensures r.None? <==> forall x :: x in s ==> !p(x)
  {
    match FindFirst(s, p)
    case None => None
    case Some(i) => Some(s[i])
  }

  /** The first `n` elements, or all of them when there are fewer (Java `limit(n)`). */
  function Take<T>(s: seq<T>, n: nat): (r: seq<T>)
    ensures |r| == if |s| < n then |s| else n
    ensures r <= s
  {
    if |s| <= n then s else s[..n]
  }

  /** `sub` occurs as a contiguous block of `s` (JavaScript `String.prototype.includes`). */
  predicate Includes(s: string, sub: string)
  {
    sub <= s || (s != [] && Includes(s[1..], sub))
  }

  /** Every text includes the empty text and itself. */
  lemma IncludesEmptyAndSelf(s: string)
    ensures Includes(s, "") && Includes(s, s)
  {
  }

  /** A text ending in `sub` includes it. */
  lemma {:induction false} IncludesSuffix(prefix: string, sub: string)
    ensures Includes(prefix + sub, sub)
  {
    if prefix != [] {
      assert (prefix + sub)[1..] == prefix[1..] + sub;
      IncludesSuffix(prefix[1..], sub);
    }
  }

  /**
   * Java's `String.length()`: the number of UTF-16 code units, two for a
   * character outside the Basic Multilingual Plane.
   */
  function Utf16Length(s: string): (n: nat)
    ensures |s| <= n <= 2 * |s|
    ensures (forall i :: 0 <= i < |s| ==> (s[i] as int) < 0x1_0000) ==> n == |s|
  {
    if s == [] then 0 else (if (s[0] as int) < 0x1_0000 then 1 else 2) + Utf16Length(s[1..])
  }

  /** Three emoji are three characters but six UTF-16 code units. */
  lemma Utf16LengthOfEmoji()
    ensures |"\U{1F600}\U{1F600}\U{1F600}"| == 3 && Utf16Length("\U{1F600}\U{1F600}\U{1F600}") == 6
  {
  }

  /** A text with `sub` somewhere inside includes it. */
  lemma {:induction false} IncludesInfix(prefix: string, sub: string, rest: string)
    ensures Includes(prefix + sub + rest, sub)
  {
    if prefix == [] {
      assert prefix + sub + rest == sub + rest;
      assert sub <= sub + rest;
    } else {
      assert (prefix + sub + rest)[1..] == prefix[1..] + sub + rest;
      IncludesInfix(prefix[1..], sub, rest);
    }
  }

  /** Every character of an included text occurs in the including one. */
  lemma {:induction false} IncludesChars(s: string, sub: string)
    ensures Includes(s, sub) ==> forall i :: 0 <= i < |sub| ==> sub[i] in s
  {
    if sub <= s {
      forall i | 0 <= i < |sub| ensures sub[i] in s {
        assert s[i] == sub[i];
      }
    } else if s != [] {
      IncludesChars(s[1..], sub);
      forall i | 0 <= i < |sub| && Includes(s, sub) ensures sub[i] in s {
        assert sub[i] in s[1..];
      }
    }
  }

  /** Decimal digits of a non-negative number (JavaScript `Number.prototype.toString()`). */
  function DecimalString(n: nat): (r: string)
    ensures |r| >= 1
    ensures forall i :: 0 <= i < |r| ==> '0' <= r[i] <= '9'
  {
    if n < 10 then [DigitChar(n)] else DecimalString(n / 10) + [DigitChar(n % 10)]
  }

  function DigitChar(d: nat): (c: char)
    requires d < 10
    ensures '0' <= c <= '9'
  {
    ((d + '0' as int) as char)
  }

  /** ASCII upper-casing of one character; other characters are left alone. */
  function UpperChar(c: char): (u: char)
    ensures 'a' <= c <= 'z' ==> 'A' <= u <= 'Z' && u as int == c as int - 32
    ensures !('a' <= c <= 'z') ==> u == c
  {
    if 'a' <= c <= 'z' then (c as int - 32) as char else c
  }

  /** Java `String.toUpperCase()` restricted to ASCII letters. */
  function Upper(s: string): (r: string)
    ensures |r| == |s|
    ensures forall i :: 0 <= i < |s| ==> r[i] == UpperChar(s[i])
  {
    if s == [] then [] else [UpperChar(s[0])] + Upper(s[1..])
  }

  /** ASCII lower-casing of one character. */
  function LowerChar(c: char): (l: char)
    ensures 'A' <= c <= 'Z' ==> 'a' <= l <= 'z' && l as int == c as int + 32
    ensures !('A' <= c <= 'Z') ==> l == c
  {
    if 'A' <= c <= 'Z' then (c as int + 32) as char else c
  }

  /** JavaScript `String.prototype.toLowerCase()` restricted to ASCII letters. */
  function Lower(s: string): (r: string)
    ensures |r| == |s|
    ensures forall i :: 0 <= i < |s| ==> r[i] == LowerChar(s[i])
  {
    if s == [] then [] else [LowerChar(s[0])] + Lower(s[1..])
  }

  /** Java `String.equalsIgnoreCase` restricted to ASCII letters. */
  predicate EqualsIgnoreCase(a: string, b: string)
  {
    |a| == |b| && forall i :: 0 <= i < |a| ==> UpperChar(a[i]) == UpperChar(b[i])
  }

  /** Comparing ignoring case against an upper-case word is comparing the upper-cased text. */
  lemma EqualsIgnoreCaseUpper(a: string, word: string)
    requires forall i :: 0 <= i < |word| ==> !('a' <= word[i] <= 'z')
    ensures EqualsIgnoreCase(a, word) <==> Upper(a) == word
  {
    if Upper(a) == word {
      forall i | 0 <= i < |a| ensures UpperChar(a[i]) == UpperChar(word[i]) {
        assert word[i] == UpperChar(a[i]);
      }
    }
    if EqualsIgnoreCase(a, word) {
      forall i | 0 <= i < |a| ensures Upper(a)[i] == word[i] {
        assert UpperChar(word[i]) == word[i];
      }
    }
  }

  /** Lower-casing a word without small letters and upper-casing it again gives the word back. */
  lemma UpperOfLower(word: string)
    requires forall i :: 0 <= i < |word| ==> !('a' <= word[i] <= 'z')
    ensures Upper(Lower(word)) == word && Upper(word) == word
  {
    var lower := Lower(word);
    forall i | 0 <= i < |word| ensures Upper(lower)[i] == word[i] && Upper(word)[i] == word[i] {
      UpperOfLowerChar(word[i]);
    }
  }

  /** The same for one character. */
  lemma UpperOfLowerChar(c: char)
    requires !('a' <= c <= 'z')
    ensures UpperChar(LowerChar(c)) == c && UpperChar(c) == c
  {
    if 'A' <= c <= 'Z' {
      assert LowerChar(c) as int == c as int + 32;
    }
  }
}
