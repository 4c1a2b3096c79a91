// Names given to containers and volumes: prefix, shorten, keep unique through a hash.
//
// A Go string is a byte sequence; here one char stands for one byte.  Lower-casing is modelled
// for ASCII, which is all that Kubernetes names may hold.
module Names {
  import opened Prelude
  import opened Numerals

  const CONTAINER_PREFIX := "csql-"
  const MAX_NAME_LEN := 63

  // --- FNV-1a, 32 bits ---------------------------------------------------------------------

  const WORD: int := 0x1_0000_0000
  const FNV_OFFSET: int := 2166136261
  const FNV_PRIME: int := 16777619
  // FNV_PRIME * FNV_INVERSE leaves remainder 1 modulo WORD.
  const FNV_INVERSE: int := 899433627

  type uint32 = x: int | 0 <= x < WORD

  predicate IsOdd(n: nat) {
    n % 2 == 1
  }

  function Bit(b: bool): nat {
    if b then 1 else 0
  }

  // Exclusive or of two numbers, bit by bit.
  function Xor(x: nat, y: nat): nat
    decreases x + y
  {
    if x == 0 && y == 0 then 0 else 2 * Xor(x / 2, y / 2) + Bit(IsOdd(x) != IsOdd(y))
  }

  lemma {:induction false} DoubleAndBit(x: nat, b: bool)
    ensures (2 * x + Bit(b)) / 2 == x && IsOdd(2 * x + Bit(b)) == b
  {
  }

  lemma {:induction false} XorUndoes(x: nat, y: nat)
    ensures Xor(Xor(x, y), y) == x
    decreases x + y
  {
    if x != 0 || y != 0 {
      XorUndoes(x / 2, y / 2);
      DoubleAndBit(Xor(x / 2, y / 2), IsOdd(x) != IsOdd(y));
      assert x == 2 * (x / 2) + Bit(IsOdd(x));
    }
  }

  lemma {:induction false} XorCommutes(x: nat, y: nat)
    ensures Xor(x, y) == Xor(y, x)
    decreases x + y
  {
    if x != 0 || y != 0 {
      XorCommutes(x / 2, y / 2);
    }
  }

  lemma {:induction false} XorFits(x: nat, y: nat, k: nat)
    requires 1 <= k <= 8
    requires x < [1, 2, 4, 8, 16, 32, 64, 128, 256][k] && y < [1, 2, 4, 8, 16, 32, 64, 128, 256][k]
    ensures Xor(x, y) < [1, 2, 4, 8, 16, 32, 64, 128, 256][k]
  {
    if k > 1 {
      XorFits(x / 2, y / 2, k - 1);
    }
  }

  function Xor8(x: nat, y: nat): (r: nat)
    requires x < 256 && y < 256
    ensures r < 256
  {
    XorFits(x, y, 8);
    Xor(x, y)
  }

  lemma {:induction false} Xor8Injective(x: nat, y: nat, z: nat)
    requires x < 256 && y < 256 && z < 256
    ensures Xor8(x, z) == Xor8(y, z) ==> x == y
    ensures Xor8(z, x) == Xor8(z, y) ==> x == y
  {
    XorUndoes(x, z);
    XorUndoes(y, z);
    XorCommutes(x, z);
    XorCommutes(y, z);
  }

  // hash ^= b only touches the low byte of the word.
  function XorByte(h: uint32, b: nat): (r: uint32)
    requires b < 256
    ensures r / 256 == h / 256 && r % 256 == Xor8(h % 256, b)
  {
    h / 256 * 256 + Xor8(h % 256, b)
  }

  function TimesPrime(h: uint32): uint32 {
    h * FNV_PRIME % WORD
  }

  function HashStep(h: uint32, c: char): uint32 {
    TimesPrime(XorByte(h, c as nat % 256))
  }

  function HashWith(step: (uint32, char) -> uint32, s: string): uint32 {
    if s == [] then FNV_OFFSET else step(HashWith(step, s[..|s| - 1]), s[|s| - 1])
  }

  function Hash(s: string): uint32 {
    HashWith(HashStep, s)
  }

  lemma {:induction false} RemainderIs(x: int, h: uint32, k: int)
    requires x == h + WORD * k
    ensures x % WORD == h
  {
  }

  lemma {:induction false} TimesPrimeUndoes(h: uint32)
    ensures TimesPrime(h) * FNV_INVERSE % WORD == h
  {
    var q, r := h * FNV_PRIME / WORD, TimesPrime(h);
    assert h * FNV_PRIME == q * WORD + r;
    assert FNV_PRIME * FNV_INVERSE == 3513497 * WORD + 1;
    RemainderIs(r * FNV_INVERSE, h, h * 3513497 - q * FNV_INVERSE);
  }

  lemma {:induction false} TimesPrimeInjective(g: uint32, h: uint32)
    ensures TimesPrime(g) == TimesPrime(h) ==> g == h
  {
    TimesPrimeUndoes(g);
    TimesPrimeUndoes(h);
  }

  // One FNV-1a step is injective in the state for a fixed byte ...
  lemma {:induction false} HashStepInjectiveInState(g: uint32, h: uint32, c: char)
    ensures HashStep(g, c) == HashStep(h, c) ==> g == h
  {
    var b := c as nat % 256;
    TimesPrimeInjective(XorByte(g, b), XorByte(h, b));
    Xor8Injective(g % 256, h % 256, b);
  }

  // ... and in the byte for a fixed state.
  lemma {:induction false} HashStepInjectiveInByte(h: uint32, c: char, d: char)
    ensures HashStep(h, c) == HashStep(h, d) ==> c as nat % 256 == d as nat % 256
  {
    TimesPrimeInjective(XorByte(h, c as nat % 256), XorByte(h, d as nat % 256));
    Xor8Injective(c as nat % 256, d as nat % 256, h % 256);
  }

  predicate IsBytes(s: string) {
    forall i :: 0 <= i < |s| ==> s[i] as nat < 256
  }

  ghost predicate DifferExactlyAt(a: string, b: string, i: nat) {
    && |a| == |b| && i < |a| && a[i] != b[i]
    && forall j :: 0 <= j < |a| && j != i ==> a[j] == b[j]
  }

  ghost predicate StepInjective(step: (uint32, char) -> uint32) {
    && (forall g: uint32, h: uint32, c :: step(g, c) == step(h, c) ==> g == h)
    && (forall h: uint32, c, d :: c as nat < 256 && d as nat < 256 && step(h, c) == step(h, d) ==> c == d)
  }

  lemma {:induction false} OneByteChangesFold(step: (uint32, char) -> uint32, a: string, b: string, i: nat)
    requires StepInjective(step)
    requires IsBytes(a) && IsBytes(b) && DifferExactlyAt(a, b, i)
    ensures HashWith(step, a) != HashWith(step, b)
  {
    var n := |a| - 1;
    if i == n {
      assert a[..n] == b[..n];
    } else {
      OneByteChangesFold(step, a[..n], b[..n], i);
    }
  }

  lemma {:induction false} HashStepIsInjective()
    ensures StepInjective(HashStep)
  {
    forall g: uint32, h: uint32, c: char
      ensures HashStep(g, c) == HashStep(h, c) ==> g == h
    {
      HashStepInjectiveInState(g, h, c);
    }
    forall h: uint32, c: char, d: char | c as nat < 256 && d as nat < 256
      ensures HashStep(h, c) == HashStep(h, d) ==> c == d
    {
      HashStepInjectiveInByte(h, c, d);
    }
  }

  // Texts that differ in exactly one byte have different hashes.
  lemma {:induction false} OneByteChangesHash(a: string, b: string, i: nat)
    requires IsBytes(a) && IsBytes(b) && DifferExactlyAt(a, b, i)
    ensures Hash(a) != Hash(b)
  {
    HashStepIsInjective();
    OneByteChangesFold(HashStep, a, b, i);
  }

  // Bit i of a number, by its own recursion.
  function NthBit(n: nat, i: nat): nat {
    if i == 0 then n % 2 else NthBit(n / 2, i - 1)
  }

  lemma {:induction false} XorBits(x: nat, y: nat, i: nat)
    ensures NthBit(Xor(x, y), i) == (NthBit(x, i) + NthBit(y, i)) % 2
  {
    var z := Xor(x / 2, y / 2);
    if x == 0 && y == 0 {
      ZeroBits(i);
    } else {
      DoubleAndBit(z, IsOdd(x) != IsOdd(y));
      if i > 0 {
        XorBits(x / 2, y / 2, i - 1);
      }
    }
  }

  lemma {:induction false} ZeroBits(i: nat)
    ensures NthBit(0, i) == 0
  {
    if i > 0 {
      ZeroBits(i - 1);
    }
  }

  // The hash is FNV-1a with 32 bits: it starts from the offset basis; each byte first changes
  // the low eight bits of the hash so far, bit by bit as an exclusive or does; then comes the
  // multiplication with the prime.
  lemma {:induction false} HashIsFnv1a(s: string, c: char) returns (mixed: int)
    ensures Hash([]) == 2166136261
    ensures 0 <= mixed < 0x1_0000_0000 && mixed / 256 == Hash(s) / 256
    ensures forall i: nat :: i < 8 ==> NthBit(mixed % 256, i) == (NthBit(Hash(s) % 256, i) + NthBit(c as nat % 256, i)) % 2
    ensures Hash(s + [c]) == mixed * 16777619 % 0x1_0000_0000
    ensures Hash(s + [c]) * 899433627 % 0x1_0000_0000 == mixed
  {
    var b := c as nat % 256;
    mixed := XorByte(Hash(s), b);
    XorByteBits(Hash(s), b);
    TimesPrimeUndoes(mixed);
    hide XorByte, TimesPrime, NthBit;
    HashOfMore(s, c);
    TimesPrimeIs(mixed);
  }

  lemma {:induction false} HashOfMore(s: string, c: char)
    ensures Hash([]) == 2166136261
    ensures Hash(s + [c]) == TimesPrime(XorByte(Hash(s), c as nat % 256))
  {
    assert (s + [c])[..|s|] == s;
    hide XorByte, TimesPrime;
  }

  lemma {:induction false} TimesPrimeIs(h: uint32)
    ensures TimesPrime(h) == h * 16777619 % 0x1_0000_0000
  {
  }

  lemma {:induction false} XorByteBits(h: uint32, b: nat)
    requires b < 256
    ensures forall i: nat :: i < 8 ==> NthBit(XorByte(h, b) % 256, i) == (NthBit(h % 256, i) + NthBit(b, i)) % 2
  {
    var low := XorByte(h, b) % 256;
    assert low == Xor(h % 256, b);
    hide Xor, NthBit, XorByte;
    forall i: nat | i < 8 ensures NthBit(low, i) == (NthBit(h % 256, i) + NthBit(b, i)) % 2 {
      XorBits(h % 256, b, i);
    }
  }

  // A published value of the hash.
  lemma {:induction false} HashOfA()
    ensures Hash("a") == 0xe40c292c
  {
    XorKnown();
    assert "a"[..0] == "";
    assert HashWith(HashStep, "") == FNV_OFFSET;
    hide Xor;
    assert HashStep(2166136261, 'a') == 2166136228 * 16777619 % WORD;
  }

  lemma {:induction false} XorKnown()
    ensures Xor(197, 97) == 164
  {
    assert Xor(3, 1) == 2;
    assert Xor(12, 6) == 2 * Xor(6, 3) && Xor(6, 3) == 2 * Xor(3, 1) + 1;
    assert Xor(49, 24) == 2 * Xor(24, 12) + 1 && Xor(24, 12) == 2 * Xor(12, 6);
    assert Xor(197, 97) == 2 * Xor(98, 48) && Xor(98, 48) == 2 * Xor(49, 24);
  }

  // --- SafePrefixedName --------------------------------------------------------------------

  function LowerChar(c: char): char {
    if 'A' <= c <= 'Z' then (c as int + 32) as char else c
  }

  function ToLower(s: string): (r: string)
    ensures |r| == |s|
    ensures forall i :: 0 <= i < |s| ==> r[i] == LowerChar(s[i])
  {
    seq(|s|, i requires 0 <= i < |s| => LowerChar(s[i]))
  }

  // Go's integer division truncates toward zero.
  function Half(x: int): int {
    if x < 0 then -(-x / 2) else x / 2
  }

  function HashSuffix(name: string): string {
    "-" + Hex(Hash(name))
  }

  predicate TooLong(prefix: string, name: string) {
    |name| + |prefix| > MAX_NAME_LEN
  }

  function TruncateLen(prefix: string, name: string): int {
    Half(MAX_NAME_LEN - |HashSuffix(name)| - |prefix|)
  }

  // The result is None where the Go code panics because a slice bound is out of range.
  function SafePrefixedName(prefix: string, name: string): Option<string> {
    if TooLong(prefix, name) then
      var t := TruncateLen(prefix, name);
      if 0 <= t <= |name| then
        Some(ToLower(prefix + name[..t] + name[|name| - t..] + HashSuffix(name)))
      else
        None
    else
      Some(ToLower(prefix + name))
  }

  // The shortener panics exactly for over-long names whose prefix and hash suffix take at
  // least 65 characters.
  lemma {:induction false} PanicsExactlyWhen(prefix: string, name: string)
    ensures SafePrefixedName(prefix, name) == None <==>
            TooLong(prefix, name) && |prefix| + |HashSuffix(name)| >= 65
  {
    HexLength(Hash(name));
  }

  // The 63-character limit holds exactly when nothing is shortened or prefix and hash suffix
  // fit it on their own; a 55-character prefix before eight hash digits gives 64 characters.
  lemma {:induction false} FitsExactlyWhen(prefix: string, name: string)
    requires SafePrefixedName(prefix, name).Some?
    ensures |SafePrefixedName(prefix, name).value| <= MAX_NAME_LEN <==>
            !TooLong(prefix, name) || |prefix| + |HashSuffix(name)| <= MAX_NAME_LEN
  {
    HexLength(Hash(name));
  }

  // A prefix of 64 bytes panics whatever the name; one that leaves the hash suffix a byte too
  // little gives 64 bytes for every over-long name.
  lemma {:induction false} LongPrefixesFail(prefix: string, name: string)
    ensures |prefix| >= 64 ==> SafePrefixedName(prefix, name) == None
    ensures |prefix| == 64 - |HashSuffix(name)| && TooLong(prefix, name) ==>
              SafePrefixedName(prefix, name).Some? && |SafePrefixedName(prefix, name).value| == 64
  {
    HexLength(Hash(name));
    PanicsExactlyWhen(prefix, name);
  }

  predicate IsLabelChar(c: char) {
    'a' <= c <= 'z' || 'A' <= c <= 'Z' || '0' <= c <= '9' || c == '-'
  }

  predicate IsLabelText(s: string) {
    forall i :: 0 <= i < |s| ==> IsLabelChar(s[i])
  }

  // A DNS label: section 2.3.1 of RFC 1035 as relaxed by section 2.1 of RFC 1123, in the
  // lower-case form that Kubernetes accepts.
  predicate IsLabel(s: string) {
    && 1 <= |s| <= 63
    && (forall i :: 0 <= i < |s| ==> 'a' <= s[i] <= 'z' || '0' <= s[i] <= '9' || s[i] == '-')
    && s[|s| - 1] != '-'
  }

  lemma {:induction false} HashSuffixText(name: string)
    ensures 2 <= |HashSuffix(name)| <= 9 && HashSuffix(name)[0] == '-'
    ensures forall i :: 1 <= i < |HashSuffix(name)| ==> IsDigit(HashSuffix(name)[i])
    ensures ToLower(HashSuffix(name)) == HashSuffix(name)
  {
    var h := Hex(Hash(name));
    HexLength(Hash(name));
    DigitsAreDigits(Hash(name), 16);
    assert forall i :: 0 <= i < |h| ==> h[i] in h;
  }

  // Names built from label text are valid labels of at most 63 characters that still carry
  // their prefix; the kept head and tail do not overlap.
  lemma {:induction false} SafeNamesAreLabels(prefix: string, name: string)
    requires 1 <= |prefix| <= 54 && IsLabelText(prefix) && prefix[0] != '-'
    requires name != [] && IsLabelText(name) && name[|name| - 1] != '-'
    ensures SafePrefixedName(prefix, name).Some?
    ensures IsLabel(SafePrefixedName(prefix, name).value)
    ensures ToLower(prefix) <= SafePrefixedName(prefix, name).value
    ensures SafePrefixedName(prefix, name).value[0] != '-'
    ensures TooLong(prefix, name) ==>
              && |SafePrefixedName(prefix, name).value| >= 62
              && 2 * TruncateLen(prefix, name) < |name|
  {
    HashSuffixText(name);
    PanicsExactlyWhen(prefix, name);
    FitsExactlyWhen(prefix, name);
    if TooLong(prefix, name) {
      TruncateFits(prefix, name);
    }
    SafeNameParts(prefix, name);
    hide Hash, HashSuffix, TruncateLen, SafePrefixedName;
    AfterPrefixText(prefix, name);
    LowerConcat(prefix, AfterPrefix(prefix, name));
    LabelFromText(prefix + AfterPrefix(prefix, name));
  }

  lemma {:induction false} AfterPrefixText(prefix: string, name: string)
    requires SafePrefixedName(prefix, name).Some? && name != [] && IsLabelText(name) && name[|name| - 1] != '-'
    ensures var s := AfterPrefix(prefix, name); s != [] && IsLabelText(s) && s[|s| - 1] != '-'
  {
    HashSuffixText(name);
    hide Hash, HashSuffix, TruncateLen;
    if TooLong(prefix, name) {
      assert IsLabelText(Kept(prefix, name));
    }
  }

  lemma {:induction false} TruncateFits(prefix: string, name: string)
    requires TooLong(prefix, name) && SafePrefixedName(prefix, name).Some?
    ensures var t := TruncateLen(prefix, name);
            && 0 <= t <= |name|
            && (|prefix| + |HashSuffix(name)| < 64 ==>
                  62 <= |prefix| + 2 * t + |HashSuffix(name)| <= 63 && 2 * t < |name|)
  {
    HashSuffixText(name);
  }

  lemma {:induction false} LabelFromText(s: string)
    requires 1 <= |s| <= 63 && IsLabelText(s) && s[|s| - 1] != '-'
    ensures IsLabel(ToLower(s))
    ensures s[0] != '-' ==> ToLower(s)[0] != '-'
  {
  }

  // What an over-long name becomes: the prefix, the first t and the last t bytes of the name in
  // lower case, and after a hyphen the hash in lower-case hexadecimal without padding, where t
  // is as large as 63 bytes allow.
  lemma {:induction false} ShortenedIs(prefix: string, name: string) returns (t: nat, hex: string)
    requires TooLong(prefix, name) && SafePrefixedName(prefix, name).Some?
    ensures t <= |name| && SafePrefixedName(prefix, name).value ==
            ToLower(prefix) + ToLower(name[..t]) + ToLower(name[|name| - t..]) + "-" + hex
    ensures |prefix| + |hex| < 63 ==> 62 <= |prefix| + 2 * t + 1 + |hex| <= 63
    ensures Value(hex, 16) == Hash(name) && 1 <= |hex| <= 8 && (|hex| > 1 ==> hex[0] != '0')
    ensures forall c :: c in hex ==> '0' <= c <= '9' || 'a' <= c <= 'f'
  {
    t, hex := TruncateLen(prefix, name), Hex(Hash(name));
    HexText(Hash(name));
    HexLength(Hash(name));
    SafeNameParts(prefix, name);
    TruncateFits(prefix, name);
    assert HashSuffix(name) == "-" + hex;
    assert Kept(prefix, name) == name[..t] + name[|name| - t..];
    hide *;
    LowerConcat(name[..t], name[|name| - t..]);
    Flatten(ToLower(prefix), ToLower(name[..t]), ToLower(name[|name| - t..]), hex);
  }

  lemma {:induction false} Flatten(a: string, b: string, c: string, d: string)
    ensures a + (b + c + ("-" + d)) == a + b + c + "-" + d
  {
  }

  lemma {:induction false} HexText(n: nat)
    ensures var hex := Hex(n);
            && Value(hex, 16) == n && hex != [] && (|hex| > 1 ==> hex[0] != '0')
            && forall c :: c in hex ==> '0' <= c <= '9' || 'a' <= c <= 'f'
  {
    ValueOfDigits(n, 16);
    DigitsAreDigits(n, 16);
    NoLeadingZero(n, 16);
  }

  lemma {:induction false} HashSuffixRecovered(prefix: string, a: string, b: string)
    requires TooLong(prefix, a) && TooLong(prefix, b)
    requires SafePrefixedName(prefix, a).Some?
    requires SafePrefixedName(prefix, a) == SafePrefixedName(prefix, b)
    ensures HashSuffix(a) == HashSuffix(b)
  {
    hide HashSuffix, ToLower;
    OutputEndsInHash(prefix, a);
    OutputEndsInHash(prefix, b);
    hide SafePrefixedName;
    SameTail(SafePrefixedName(prefix, a).value, HashSuffix(a), HashSuffix(b));
  }

  // A text has at most one tail that starts with its last '-'.
  lemma {:induction false} SameTail(r: string, g: string, h: string)
    requires 1 <= |g| <= |r| && 1 <= |h| <= |r| && r[|r| - |g|..] == g && r[|r| - |h|..] == h
    requires g[0] == '-' && forall i :: 1 <= i < |g| ==> g[i] != '-'
    requires h[0] == '-' && forall i :: 1 <= i < |h| ==> h[i] != '-'
    ensures g == h
  {
    assert forall i :: 0 <= i < |g| ==> r[|r| - |g| + i] == g[i];
    assert forall i :: 0 <= i < |h| ==> r[|r| - |h| + i] == h[i];
  }

  lemma {:induction false} HashSuffixInjective(a: string, b: string)
    requires HashSuffix(a) == HashSuffix(b)
    ensures Hash(a) == Hash(b)
  {
    assert HashSuffix(a)[1..] == Hex(Hash(a)) && HashSuffix(b)[1..] == Hex(Hash(b));
    ValueOfDigits(Hash(a), 16);
    ValueOfDigits(Hash(b), 16);
  }

  // Two over-long names get the same output only if their hashes and the lower-cased text
  // that was kept agree: the characters after the last '-' are the hash.
  lemma {:induction false} CollisionNeedsEqualHash(prefix: string, a: string, b: string)
    requires TooLong(prefix, a) && TooLong(prefix, b)
    requires SafePrefixedName(prefix, a).Some?
    requires SafePrefixedName(prefix, a) == SafePrefixedName(prefix, b)
    ensures Hash(a) == Hash(b)
    ensures TruncateLen(prefix, a) == TruncateLen(prefix, b)
    ensures var t := TruncateLen(prefix, a);
            ToLower(a[..t]) == ToLower(b[..t]) && ToLower(a[|a| - t..]) == ToLower(b[|b| - t..])
  {
    HashSuffixRecovered(prefix, a, b);
    HashSuffixInjective(a, b);
    var t, r := TruncateLen(prefix, a), SafePrefixedName(prefix, a).value;
    OutputKeepsText(prefix, a, t, r);
    OutputKeepsText(prefix, b, t, r);
    KeptTextUnique(r, |prefix|, t, a, b);
  }

  // r holds the lower-cased head and tail of name, t characters each, from position p on.
  ghost predicate Keeps(r: string, p: nat, t: nat, name: string) {
    && t <= |name| && p + t + t <= |r|
    && r[p..p + t] == ToLower(name[..t])
    && r[p + t..p + t + t] == ToLower(name[|name| - t..])
  }

  lemma {:induction false} OutputKeepsText(prefix: string, name: string, t: int, r: string)
    requires TooLong(prefix, name) && SafePrefixedName(prefix, name) == Some(r)
    requires t == TruncateLen(prefix, name)
    ensures 0 <= t && Keeps(r, |prefix|, t, name)
  {
    var p := |prefix|;
    var text := prefix + name[..t] + name[|name| - t..] + HashSuffix(name);
    assert text[p..p + t] == name[..t];
    assert text[p + t..p + t + t] == name[|name| - t..];
  }

  lemma {:induction false} KeptTextUnique(r: string, p: nat, t: nat, a: string, b: string)
    requires Keeps(r, p, t, a) && Keeps(r, p, t, b)
    ensures ToLower(a[..t]) == ToLower(b[..t]) && ToLower(a[|a| - t..]) == ToLower(b[|b| - t..])
  {
  }

  lemma {:induction false} OutputEndsInHash(prefix: string, name: string)
    requires TooLong(prefix, name) && SafePrefixedName(prefix, name).Some?
    ensures var r, h := SafePrefixedName(prefix, name).value, HashSuffix(name);
            && 1 <= |h| <= |r| && r[|r| - |h|..] == h
            && h[0] == '-' && forall i :: 1 <= i < |h| ==> h[i] != '-'
  {
    HashSuffixText(name);
    var r, h := SafePrefixedName(prefix, name).value, HashSuffix(name);
    var t := TruncateLen(prefix, name);
    var text := prefix + name[..t] + name[|name| - t..];
    assert r == ToLower(text + h);
    assert r[|r| - |h|..] == ToLower(h);
  }

  // Changing one byte of an over-long name always changes the shortened name.
  lemma {:induction false} OneByteChangesName(prefix: string, a: string, b: string, i: nat)
    requires IsBytes(a) && IsBytes(b) && DifferExactlyAt(a, b, i)
    requires TooLong(prefix, a) && SafePrefixedName(prefix, a).Some?
    ensures SafePrefixedName(prefix, a) != SafePrefixedName(prefix, b)
  {
    OneByteChangesHash(a, b, i);
    if SafePrefixedName(prefix, a) == SafePrefixedName(prefix, b) {
      CollisionNeedsEqualHash(prefix, a, b);
    }
  }

  // --- Container and volume names ----------------------------------------------------------

  function FullName(w: NamespacedName): string {
    w.namespace + "-" + w.name
  }

  function ContainerName(w: NamespacedName): (r: string)
    ensures "csql-" <= r && |r| <= 63
  {
    var name := FullName(w);
    HashSuffixText(name);
    PanicsExactlyWhen(CONTAINER_PREFIX, name);
    FitsExactlyWhen(CONTAINER_PREFIX, name);
    SafePrefixedName(CONTAINER_PREFIX, name).value
  }

  function ReplaceColons(s: string): (r: string)
    ensures |r| == |s|
    ensures forall i :: 0 <= i < |s| ==> r[i] == if s[i] == ':' then '-' else s[i]
  {
    seq(|s|, i requires 0 <= i < |s| => if s[i] == ':' then '-' else s[i])
  }

  function VolumeName(w: NamespacedName, connectionString: string, mountType: string): Option<string> {
    var connName := ReplaceColons(ToLower(connectionString));
    SafePrefixedName(CONTAINER_PREFIX, w.namespace + "-" + w.name + "-" + mountType + "-" + connName)
  }

  // Connection strings are label text with colons, so volume names are labels too.
  lemma {:induction false} VolumeNamesAreLabels(w: NamespacedName, conn: string, mountType: string)
    requires IsLabelText(w.namespace) && IsLabelText(w.name) && IsLabelText(mountType)
    requires forall i :: 0 <= i < |conn| ==> IsLabelChar(conn[i]) || conn[i] == ':'
    requires conn != [] && conn[|conn| - 1] != '-' && conn[|conn| - 1] != ':'
    ensures VolumeName(w, conn, mountType).Some? && IsLabel(VolumeName(w, conn, mountType).value)
  {
    var connName := ReplaceColons(ToLower(conn));
    var name := w.namespace + "-" + w.name + "-" + mountType + "-" + connName;
    assert name[|name| - 1] == connName[|connName| - 1];
    SafeNamesAreLabels(CONTAINER_PREFIX, name);
  }

  // A container name spells out namespace and resource if they fit; ...
  lemma {:induction false} ShortContainerName(w: NamespacedName)
    requires |w.namespace| + |w.name| <= 57
    ensures ContainerName(w) == "csql-" + ToLower(w.namespace + "-" + w.name)
  {
    LowerPrefix();
    SafeNameParts(CONTAINER_PREFIX, FullName(w));
    hide ToLower;
  }

  // ... otherwise it keeps head and tail of both and ends in the hash of both.
  lemma {:induction false} LongContainerName(w: NamespacedName) returns (t: nat, hex: string)
    requires |w.namespace| + |w.name| > 57
    ensures var full := w.namespace + "-" + w.name;
            && t <= |full| && 62 <= 6 + 2 * t + |hex| <= 63 && Value(hex, 16) == Hash(full)
            && ContainerName(w) == "csql-" + ToLower(full[..t]) + ToLower(full[|full| - t..]) + "-" + hex
  {
    LowerPrefix();
    ContainerPrefixIsSafe(FullName(w));
    var name := ContainerName(w);
    assert SafePrefixedName(CONTAINER_PREFIX, FullName(w)) == Some(name);
    t, hex := ShortenedIs(CONTAINER_PREFIX, FullName(w));
    hide SafePrefixedName, ToLower, Hash, Value, HashSuffix, TruncateLen;
  }

  lemma {:induction false} LowerPrefix()
    ensures ToLower(CONTAINER_PREFIX) == "csql-"
  {
  }

  // A short volume name spells out namespace, resource, mount type and connection string, in
  // lower case and with hyphens for colons.
  lemma {:induction false} VolumeNameSpells(w: NamespacedName, conn: string, mountType: string)
    requires |w.namespace| + |w.name| + |mountType| + |conn| <= 55
    ensures var head := w.namespace + "-" + w.name + "-" + mountType + "-";
            var r := VolumeName(w, conn, mountType);
            && r.Some? && |r.value| == |head| + |conn| + 5
            && r.value[..|head| + 5] == "csql-" + ToLower(head)
            && forall i :: 0 <= i < |conn| ==>
                 r.value[|head| + 5 + i] == if conn[i] == ':' then '-' else LowerChar(conn[i])
  {
    var head := w.namespace + "-" + w.name + "-" + mountType + "-";
    var tail := ReplaceColons(ToLower(conn));
    assert !TooLong(CONTAINER_PREFIX, head + tail);
    LowerConcat(CONTAINER_PREFIX, head + tail);
    LowerConcat(head, tail);
    assert VolumeName(w, conn, mountType) == Some(ToLower(CONTAINER_PREFIX) + (ToLower(head) + ToLower(tail)));
    forall i | 0 <= i < |conn| ensures ToLower(tail)[i] == if conn[i] == ':' then '-' else LowerChar(conn[i]) {
    }
  }

  // Lower-casing changes the 26 capital letters only, each to its small letter.
  lemma {:induction false} LowerLaws(c: char)
    ensures !('A' <= LowerChar(c) <= 'Z')
    ensures 'A' <= c <= 'Z' ==> LowerChar(c) as int - 'a' as int == c as int - 'A' as int
    ensures !('A' <= c <= 'Z') ==> LowerChar(c) == c
  {
  }

  // --- When two names coincide -------------------------------------------------------------

  // What SafePrefixedName puts after the prefix, before lower-casing.
  function AfterPrefix(prefix: string, name: string): string
    requires SafePrefixedName(prefix, name).Some?
  {
    if TooLong(prefix, name) then Kept(prefix, name) + HashSuffix(name) else name
  }

  // The head and the tail of an over-long name that stay.
  function Kept(prefix: string, name: string): string
    requires SafePrefixedName(prefix, name).Some? && TooLong(prefix, name)
  {
    var t := TruncateLen(prefix, name);
    name[..t] + name[|name| - t..]
  }

  lemma {:induction false} LowerConcat(a: string, b: string)
    ensures ToLower(a + b) == ToLower(a) + ToLower(b)
  {
  }

  lemma {:induction false} SafeNameParts(prefix: string, name: string)
    requires SafePrefixedName(prefix, name).Some?
    ensures SafePrefixedName(prefix, name).value == ToLower(prefix) + ToLower(AfterPrefix(prefix, name))
    ensures TooLong(prefix, name) ==>
              ToLower(AfterPrefix(prefix, name)) == ToLower(Kept(prefix, name)) + HashSuffix(name)
  {
    hide Hash;
    LowerConcat(prefix, AfterPrefix(prefix, name));
    if TooLong(prefix, name) {
      var t := TruncateLen(prefix, name);
      assert prefix + name[..t] + name[|name| - t..] + HashSuffix(name) ==
             prefix + AfterPrefix(prefix, name);
      LowerConcat(Kept(prefix, name), HashSuffix(name));
      HashSuffixText(name);
    }
  }

  lemma {:induction false} OverLongCollideIff(prefix: string, a: string, b: string)
    requires SafePrefixedName(prefix, a).Some? && SafePrefixedName(prefix, b).Some?
    requires TooLong(prefix, a) && TooLong(prefix, b)
    ensures SafePrefixedName(prefix, a) == SafePrefixedName(prefix, b) <==>
            Hash(a) == Hash(b) && ToLower(Kept(prefix, a)) == ToLower(Kept(prefix, b))
  {
    SafeNameParts(prefix, a);
    SafeNameParts(prefix, b);
    hide Hash;
    if SafePrefixedName(prefix, a) == SafePrefixedName(prefix, b) {
      CollisionNeedsEqualHash(prefix, a, b);
      var t := TruncateLen(prefix, a);
      LowerConcat(a[..t], a[|a| - t..]);
      LowerConcat(b[..t], b[|b| - t..]);
    }
  }

  lemma {:induction false} ShortCollideIff(prefix: string, a: string, b: string)
    requires SafePrefixedName(prefix, a).Some? && SafePrefixedName(prefix, b).Some?
    requires !TooLong(prefix, a)
    ensures SafePrefixedName(prefix, a) == SafePrefixedName(prefix, b) <==>
            ToLower(a) == if TooLong(prefix, b) then ToLower(Kept(prefix, b)) + HashSuffix(b) else ToLower(b)
  {
    SafeNameParts(prefix, a);
    SafeNameParts(prefix, b);
    hide SafePrefixedName, HashSuffix, Kept;
    var p := ToLower(prefix);
    assert (p + ToLower(a))[|p|..] == ToLower(a);
    assert (p + ToLower(AfterPrefix(prefix, b)))[|p|..] == ToLower(AfterPrefix(prefix, b));
  }

  lemma {:induction false} ContainerPrefixIsSafe(name: string)
    ensures SafePrefixedName(CONTAINER_PREFIX, name).Some?
  {
    HashSuffixText(name);
    PanicsExactlyWhen(CONTAINER_PREFIX, name);
  }

  // What a container name keeps of an over-long name.
  function KeptInContainer(name: string): string
    requires TooLong(CONTAINER_PREFIX, name)
  {
    ContainerPrefixIsSafe(name);
    Kept(CONTAINER_PREFIX, name)
  }

  // Two resources of one namespace get the same container name exactly if, up to case, they
  // have the same name and it is short; or both are over-long and agree in hash, head and tail;
  // or one is short and spells out the shortened form of the other.
  lemma {:induction false} ContainerNamesCoincideIff(v: NamespacedName, w: NamespacedName)
    requires v.namespace == w.namespace
    ensures var p, a, b := CONTAINER_PREFIX, FullName(v), FullName(w);
            ContainerName(v) == ContainerName(w) <==>
            if TooLong(p, a) && TooLong(p, b) then Hash(a) == Hash(b) && ToLower(KeptInContainer(a)) == ToLower(KeptInContainer(b))
            else if TooLong(p, a) then ToLower(b) == ToLower(KeptInContainer(a)) + HashSuffix(a)
            else if TooLong(p, b) then ToLower(a) == ToLower(KeptInContainer(b)) + HashSuffix(b)
            else ToLower(v.name) == ToLower(w.name)
  {
    var p, a, b := CONTAINER_PREFIX, FullName(v), FullName(w);
    hide Hash, HashSuffix, SafePrefixedName, Kept, TruncateLen;
    ContainerPrefixIsSafe(a);
    ContainerPrefixIsSafe(b);
    if TooLong(p, a) && TooLong(p, b) {
      OverLongCollideIff(p, a, b);
    } else if TooLong(p, a) {
      ShortCollideIff(p, b, a);
    } else {
      ShortCollideIff(p, a, b);
      if !TooLong(p, b) {
        SameAfterNamespace(v, w);
      }
    }
  }

  lemma {:induction false} SameAfterNamespace(v: NamespacedName, w: NamespacedName)
    requires v.namespace == w.namespace
    ensures ToLower(FullName(v)) == ToLower(FullName(w)) <==> ToLower(v.name) == ToLower(w.name)
  {
    var head := v.namespace + "-";
    LowerConcat(head, v.name);
    LowerConcat(head, w.name);
    assert ToLower(FullName(v))[|head|..] == ToLower(v.name) && ToLower(FullName(w))[|head|..] == ToLower(w.name);
  }

  // It happens without any collision of hashes: every over-long resource of a namespace with a
  // name of at most 23 bytes has a twin with a shorter name and the same container name.
  lemma {:induction false} OverLongNamesHaveTwins(w: NamespacedName) returns (twin: NamespacedName)
    requires TooLong(CONTAINER_PREFIX, FullName(w)) && |w.namespace| <= 23
    ensures twin.namespace == w.namespace && |twin.name| < |w.name|
    ensures ContainerName(twin) == ContainerName(w)
    ensures IsLabelText(FullName(w)) ==> IsLabelText(twin.name)
  {
    var p, b, n := CONTAINER_PREFIX, FullName(w), |w.namespace| + 1;
    ContainerPrefixIsSafe(b);
    TwinText(b);
    var a := AfterPrefix(p, b);
    assert a[..n] == b[..n] == w.namespace + "-" by {
      assert a[..n] == a[..24][..n] && b[..n] == b[..24][..n];
    }
    twin := NamespacedName(w.namespace, a[n..]);
    assert FullName(twin) == a;
    SafeNameParts(p, a);
    SafeNameParts(p, b);
  }

  // The text that an over-long name is shortened to.
  lemma {:induction false} TwinText(b: string)
    requires TooLong(CONTAINER_PREFIX, b) && SafePrefixedName(CONTAINER_PREFIX, b).Some?
    ensures var a := AfterPrefix(CONTAINER_PREFIX, b);
            24 <= |a| <= 58 && a[..24] == b[..24] && (IsLabelText(b) ==> IsLabelText(a))
  {
    HashSuffixText(b);
    hide Hash, HashSuffix;
    var t := TruncateLen(CONTAINER_PREFIX, b);
    assert 24 <= t;
  }
}
