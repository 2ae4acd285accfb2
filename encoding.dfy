// Text helpers the service relies on: the reversible password encoding that stands in
// for the browser's `btoa`, and the decimal rendering of a number in a template string.

module Encoding {

  /** The characters of `s` in reverse order. */
  function Reverse(s: string): string
  {
    if s == [] then [] else Reverse(s[1..]) + [s[0]]
  }

  /**
   * The stored credential for a password. Like `btoa`, it is reversible and
   * maps the empty password to the empty string; the base64 alphabet is not modelled.
   */
  function Encode(password: string): (r: string)
    ensures r == [] <==> password == []
  {
    Reverse(password)
  }

  /** Recovers the password from its stored credential (the role of `atob`). */
  function Decode(stored: string): string
  {
    Reverse(stored)
  }

  lemma {:induction false} ReverseSnoc(s: string, c: char)
    ensures Reverse(s + [c]) == [c] + Reverse(s)
  {
    if s == [] {
      assert s + [c] == [c];
    } else {
      assert (s + [c])[1..] == s[1..] + [c];
      ReverseSnoc(s[1..], c);
    }
  }

  /** Decoding a stored credential gives back the password it was made from. */
  lemma {:induction false} DecodeEncode(password: string)
    ensures Decode(Encode(password)) == password
  {
    if password != [] {
      ReverseSnoc(Reverse(password[1..]), password[0]);
      DecodeEncode(password[1..]);
      assert [password[0]] + password[1..] == password;
    }
  }

  /** Two passwords have the same stored credential exactly when they are equal. */
  lemma EncodeInjective(a: string, b: string)
    ensures Encode(a) == Encode(b) <==> a == b
  {
    DecodeEncode(a);
    DecodeEncode(b);
  }

  /** The character of a decimal digit. */
  function DigitChar(d: nat): (c: char)
    requires d < 10
    ensures '0' <= c <= '9'
    ensures c as int - '0' as int == d
  {
    ('0' as int + d) as char
  }

  predicate AllDigits(s: string)
  {
    forall i :: 0 <= i < |s| ==> '0' <= s[i] <= '9'
  }

  /** The number a string of decimal digits denotes, most significant digit first. */
  function DecimalValue(s: string): nat
    requires AllDigits(s)
  {
    if s == [] then 0 else 10 * DecimalValue(s[..|s| - 1]) + (s[|s| - 1] as int - '0' as int)
  }

  /**
   * The decimal text of `n` without leading zeros, as `${n}` renders an integer: it
   * reads back as `n`, so distinct numbers give distinct texts.
   */
  function DecimalString(n: nat): (r: string)
    ensures 1 <= |r|
    ensures AllDigits(r)
    ensures |r| > 1 ==> r[0] != '0'
    ensures DecimalValue(r) == n
  {
    if n < 10 then [DigitChar(n)]
    else
      var prefix := DecimalString(n / 10);
      var r := prefix + [DigitChar(n % 10)];
      assert r[..|r| - 1] == prefix;
      r
  }
}
