// Weak entity tags: a modification time in microseconds, printed and read back.
module Etag {
  import opened Wrappers

  const PREFIX: string := "W/\""
  const SUFFIX: string := "\""
  const MAX_INT64: int := 0x7FFF_FFFF_FFFF_FFFF
  const MIN_INT64: int := -0x8000_0000_0000_0000

  function Digit(d: nat): char
    requires d < 10
  {
    d as char + '0'
  }

  function Digits(n: nat): (s: string)
    ensures |s| > 0 && forall i :: 0 <= i < |s| ==> '0' <= s[i] <= '9'
  {
    if n < 10 then [Digit(n)] else Digits(n / 10) + [Digit(n % 10)]
  }

  function FormatInt(n: int): string {
    if n < 0 then "-" + Digits(-n) else Digits(n)
  }

  // The entity tag of a resource last modified at t.
  function Weak(t: int): string {
    PREFIX + FormatInt(t) + SUFFIX
  }

  function ParseDigits(s: string): Option<nat> {
    if s == [] then None
    else
      var c := s[|s| - 1];
      if !('0' <= c <= '9') then None
      else if |s| == 1 then Some((c - '0') as nat)
      else
        match ParseDigits(s[..|s| - 1])
        case None => None
        case Some(high) => Some(10 * high + (c - '0') as nat)
  }

  // An optional sign, then digits.
  function ParseSigned(s: string): Option<int> {
    var signed := s != [] && (s[0] == '+' || s[0] == '-');
    match ParseDigits(if signed then s[1..] else s)
    case None => None
    case Some(n) => Some(if signed && s[0] == '-' then 0 - n else n)
  }

  // A base-10 integer of 64 bits; one that is out of range is an error.
  function ParseInt(s: string): Option<int> {
    match ParseSigned(s)
    case None => None
    case Some(value) => if MIN_INT64 <= value <= MAX_INT64 then Some(value) else None
  }

  function Parse(version: string): Option<int> {
    if !(PREFIX <= version) then None
    else
      var rest := version[|PREFIX|..];
      if rest == [] || rest[|rest| - 1] != '"' then None
      else
        match ParseInt(rest[..|rest| - 1])
        case None => None
        case Some(micros) => if micros < 0 then None else Some(micros)
  }

  lemma {:induction false} ParseDigitsOfDigits(n: nat)
    ensures ParseDigits(Digits(n)) == Some(n)
  {
    if n >= 10 {
      ParseDigitsOfDigits(n / 10);
      assert Digits(n)[..|Digits(n)| - 1] == Digits(n / 10);
    }
  }

  lemma ParseSignedOfNat(n: nat)
    ensures ParseSigned(Digits(n)) == Some(n)
    ensures ParseSigned("-" + Digits(n)) == Some(0 - n)
  {
    var s := Digits(n);
    assert '0' <= s[0] <= '9';
    ParseDigitsOfDigits(n);
    var t := "-" + s;
    assert t[0] == '-' && t[1..] == s;
  }

  lemma ParseSignedOfFormat(n: int)
    ensures ParseSigned(FormatInt(n)) == Some(n)
  {
    ParseSignedOfNat(if n < 0 then -n else n);
  }

  // Parse undoes Weak exactly on the times a 64-bit count of microseconds holds and that are not before the epoch.
  lemma ParseOfWeak(t: int)
    ensures Parse(Weak(t)) == if 0 <= t <= MAX_INT64 then Some(t) else None
  {
    var rest := Weak(t)[|PREFIX|..];
    assert rest == FormatInt(t) + SUFFIX;
    assert rest[..|rest| - 1] == FormatInt(t);
    ParseSignedOfFormat(t);
  }

  // Two times never share an entity tag, so matching a version is matching a modification time.
  lemma WeakInjective(a: int, b: int)
    ensures Weak(a) == Weak(b) <==> a == b
  {
    if Weak(a) == Weak(b) {
      assert Weak(a)[|PREFIX|..|Weak(a)| - 1] == FormatInt(a);
      assert Weak(b)[|PREFIX|..|Weak(b)| - 1] == FormatInt(b);
      ParseSignedOfFormat(a);
      ParseSignedOfFormat(b);
    }
  }
}
