/**
 * Cache keys of the notes service.
 *
 * A single note is cached under `note:` followed by its id written in
 * decimal (backend/server.js:40); the whole listing under the fixed key
 * `all_notes` (backend/server.js:44). `ParseKey` is the inverse of `CacheKey`
 * and names, for every key, the note whose row it is meant to hold.
 */
module CacheKeys {
  import opened Wrappers

  const NotePrefix: string := "note:"
  const AllNotesKey: string := "all_notes"

  predicate IsDigit(c: char) {
    '0' <= c <= '9'
  }

  predicate AllDigits(s: string) {
    forall i :: 0 <= i < |s| ==> IsDigit(s[i])
  }

  /** A decimal numeral without superfluous leading zeros. */
  predicate Canonical(s: string) {
    |s| >= 1 && AllDigits(s) && (s[0] == '0' ==> |s| == 1)
  }

  function DigitChar(d: nat): (c: char)
    requires d < 10
    ensures IsDigit(c)
    ensures c as int - '0' as int == d
  {
    (d + '0' as int) as char
  }

  function DigitValue(c: char): (d: nat)
    requires IsDigit(c)
    ensures d < 10
    ensures DigitChar(d) == c
  {
    c as int - '0' as int
  }

  /** The decimal numeral of `n`: the canonical spelling of id `n` in a request path. */
  function Decimal(n: nat): (s: string)
    ensures Canonical(s)
  {
    if n < 10 then [DigitChar(n)] else Decimal(n / 10) + [DigitChar(n % 10)]
  }

  /** The number a string of digits denotes; leading zeros are allowed. */
  function DigitsValue(s: string): nat
    requires AllDigits(s)
  {
    if |s| == 0 then 0 else DigitsValue(s[..|s| - 1]) * 10 + DigitValue(s[|s| - 1])
  }

  lemma {:induction false} DecimalRoundTrip(n: nat)
    ensures DigitsValue(Decimal(n)) == n
  {
    if n >= 10 {
      DecimalRoundTrip(n / 10);
      var s := Decimal(n);
      assert s[..|s| - 1] == Decimal(n / 10);
    }
  }

  lemma {:induction false} LeadingNonZeroIsPositive(s: string)
    requires |s| >= 1 && AllDigits(s) && s[0] != '0'
    ensures DigitsValue(s) >= 1
  {
    if |s| > 1 {
      LeadingNonZeroIsPositive(s[..|s| - 1]);
    }
  }

  lemma {:induction false} CanonicalRoundTrip(s: string)
    requires Canonical(s)
    ensures Decimal(DigitsValue(s)) == s
  {
    if |s| > 1 {
      var p := s[..|s| - 1];
      assert Canonical(p);
      CanonicalRoundTrip(p);
      LeadingNonZeroIsPositive(p);
      var n := DigitsValue(s);
      assert n / 10 == DigitsValue(p);
      assert n % 10 == DigitValue(s[|s| - 1]);
      assert s == p + [s[|s| - 1]];
    }
  }

  /** `getCacheKey`: the key a single note is cached under. */
  function CacheKey(id: nat): (key: string)
    ensures |key| > |NotePrefix| && key[..|NotePrefix|] == NotePrefix
    ensures key != AllNotesKey
  {
    var key := NotePrefix + Decimal(id);
    assert key[0] != AllNotesKey[0];
    key
  }

  /** The note id a key stands for, if it is the key of a single note. */
  function ParseKey(key: string): Option<nat> {
    if |key| > |NotePrefix| && key[..|NotePrefix|] == NotePrefix && Canonical(key[|NotePrefix|..])
    then Some(DigitsValue(key[|NotePrefix|..]))
    else None
  }

  lemma ParseCacheKey(id: nat)
    ensures ParseKey(CacheKey(id)) == Some(id)
  {
    var key := CacheKey(id);
    assert key[|NotePrefix|..] == Decimal(id);
    DecimalRoundTrip(id);
  }

  lemma ParsedKeyIsCacheKey(key: string, id: nat)
    requires ParseKey(key) == Some(id)
    ensures CacheKey(id) == key
  {
    var digits := key[|NotePrefix|..];
    CanonicalRoundTrip(digits);
    assert key == NotePrefix + digits;
  }

  /** Distinct notes never share a cache key. */
  lemma CacheKeyInjective(a: nat, b: nat)
    ensures CacheKey(a) == CacheKey(b) <==> a == b
  {
    ParseCacheKey(a);
    ParseCacheKey(b);
  }

  lemma AllNotesKeyIsNoNoteKey()
    ensures ParseKey(AllNotesKey) == None
  {
  }
}
