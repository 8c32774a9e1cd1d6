/** The base64 codec: sections 4 and 5 of RFC 4648, as bits in and bits out. */
module Base64 {
  import opened Basics

  type Byte = x: int | 0 <= x < 256

  datatype Alphabet = Auto | Standard | UrlFilenameSafe

  datatype Behaviour = Moderate | Loose

  datatype Result = Decoded(bytes: seq<Byte>) | InvalidCharacter

  const PAD: Byte := 61  // '='

  // ----- bits -----

  /** The w low bits of x, most significant first. */
  function ToBits(x: nat, w: nat): (r: seq<bool>)
    ensures |r| == w
  {
    if w == 0 then [] else ToBits(x / 2, w - 1) + [x % 2 == 1]
  }

  /** The bytes as one bit string, most significant bit first. */
  function BitsOfBytes(xs: seq<nat>): (r: seq<bool>)
    ensures |r| == 8 * |xs|
  {
    if xs == [] then [] else BitsOfBytes(xs[..|xs| - 1]) + ToBits(xs[|xs| - 1], 8)
  }

  /** The six-bit groups as one bit string. */
  function BitsOfSextets(xs: seq<nat>): (r: seq<bool>)
    ensures |r| == 6 * |xs|
  {
    if xs == [] then [] else BitsOfSextets(xs[..|xs| - 1]) + ToBits(xs[|xs| - 1], 6)
  }

  function BitOr(x: nat, y: nat): nat {
    if x == 0 && y == 0 then 0
    else 2 * BitOr(x / 2, y / 2) + if x % 2 == 1 || y % 2 == 1 then 1 else 0
  }

  /** Disjoint bit patterns: `or` is addition. */
  lemma {:induction false} OrDisjoint(high: nat, low: nat, k: nat)
    requires low < Pow2(k)
    ensures BitOr(high * Pow2(k), low) == high * Pow2(k) + low
  {
    if k == 0 {
      OrZero(high);
    } else {
      var h := high * Pow2(k - 1);
      assert high * Pow2(k) == 2 * h;
      OrDisjoint(high, low / 2, k - 1);
    }
  }

  lemma {:induction false} OrZero(x: nat)
    ensures BitOr(x, 0) == x
  {
    if x > 0 { OrZero(x / 2); }
  }

  /** A number made of a high and a low part has the bits of the one followed by the other's. */
  lemma {:induction false} BitsConcat(high: nat, low: nat, j: nat, k: nat)
    requires low < Pow2(k)
    ensures ToBits(high * Pow2(k) + low, j + k) == ToBits(high, j) + ToBits(low, k)
  {
    if k > 0 {
      var h := high * Pow2(k - 1);
      assert high * Pow2(k) == 2 * h;
      assert (2 * h + low) / 2 == h + low / 2 && (2 * h + low) % 2 == low % 2;
      BitsConcat(high, low / 2, j, k - 1);
    }
  }

  lemma {:induction false} ToBitsInjective(x: nat, y: nat, w: nat)
    requires x < Pow2(w) && y < Pow2(w) && ToBits(x, w) == ToBits(y, w)
    ensures x == y
  {
    if w > 0 {
      assert ToBits(x, w)[..w - 1] == ToBits(x / 2, w - 1) && ToBits(x, w)[w - 1] == (x % 2 == 1);
      assert ToBits(y, w)[..w - 1] == ToBits(y / 2, w - 1) && ToBits(y, w)[w - 1] == (y % 2 == 1);
      ToBitsInjective(x / 2, y / 2, w - 1);
    }
  }

  /** A byte string is determined by its bits. */
  lemma {:induction false} BitsOfBytesInjective(xs: seq<Byte>, ys: seq<Byte>)
    requires BitsOfBytes(xs) == BitsOfBytes(ys)
    ensures xs == ys
  {
    assert |xs| == |ys|;
    if xs != [] {
      var n := |xs| - 1;
      assert BitsOfBytes(xs)[..8 * n] == BitsOfBytes(xs[..n]);
      assert BitsOfBytes(ys)[..8 * n] == BitsOfBytes(ys[..n]);
      assert BitsOfBytes(xs)[8 * n..] == ToBits(xs[n], 8);
      assert BitsOfBytes(ys)[8 * n..] == ToBits(ys[n], 8);
      BitsOfBytesInjective(xs[..n], ys[..n]);
      assert Pow2(8) == 256;
      ToBitsInjective(xs[n], ys[n], 8);
      assert xs == xs[..n] + [xs[n]] && ys == ys[..n] + [ys[n]];
    }
  }

  // ----- the two alphabets -----

  /** The character codes of the alphabet: A-Z, a-z, 0-9, then the two that differ. */
  function CharOf(url: bool, v: nat): (c: Byte)
    requires v < 64
    ensures c != PAD
  {
    if v < 26 then 65 + v
    else if v < 52 then 97 + v - 26
    else if v < 62 then 48 + v - 52
    else if v == 62 then (if url then 45 else 43)
    else (if url then 95 else 47)
  }

  predicate IsAlphanumeric(c: Byte) {
    65 <= c <= 90 || 97 <= c <= 122 || 48 <= c <= 57
  }

  predicate IsPlusOrSlash(c: Byte) { c == 43 || c == 47 }

  predicate IsDashOrUnderscore(c: Byte) { c == 45 || c == 95 }

  /** The six-bit value of a character of either alphabet. */
  function Value(c: Byte): (v: nat)
    ensures v < 64
  {
    if 65 <= c <= 90 then c - 65
    else if 97 <= c <= 122 then c - 97 + 26
    else if 48 <= c <= 57 then c - 48 + 52
    else if c == 43 || c == 45 then 62
    else if c == 47 || c == 95 then 63
    else 0
  }

  datatype Lookup = Found(alphabet: Alphabet, value: nat) | NotFound

  /** _base64_value: the value of c and the alphabet in force afterwards. */
  function Base64Value(alphabet: Alphabet, c: Byte): Lookup {
    if 65 <= c <= 90 then Found(alphabet, c - 65)
    else if 97 <= c <= 122 then Found(alphabet, c - 97 + 26)
    else if 48 <= c <= 57 then Found(alphabet, c - 48 + 52)
    else if alphabet == Standard then
      if c == 43 then Found(alphabet, 62)
      else if c == 47 then Found(alphabet, 63)
      else NotFound
    else if alphabet == UrlFilenameSafe then
      if c == 45 then Found(alphabet, 62)
      else if c == 95 then Found(alphabet, 63)
      else NotFound
    else if c == 43 then Found(Standard, 62)
    else if c == 47 then Found(Standard, 63)
    else if c == 45 then Found(UrlFilenameSafe, 62)
    else if c == 95 then Found(UrlFilenameSafe, 63)
    else NotFound
  }

  const UPPER: string := "ABCDEFGHIJKLMNOPQRSTUVWXYZ"
  const LOWER: string := "abcdefghijklmnopqrstuvwxyz"
  const DIGITS: string := "0123456789"

  /** The two tables of section 4 and section 5, written out. */
  function Table(url: bool): string { UPPER + LOWER + DIGITS + if url then "-_" else "+/" }

  lemma UpperCodes(v: nat)
    requires v < 26
    ensures UPPER[v] as int == 65 + v && LOWER[v] as int == 97 + v
  {
  }

  lemma TableParts(url: bool, v: nat)
    requires v < 64
    ensures |Table(url)| == 64
    ensures Table(url)[v] == if v < 26 then UPPER[v] else if v < 52 then LOWER[v - 26] else if v < 62 then DIGITS[v - 52]
                             else (if url then "-_" else "+/")[v - 62]
  {
  }

  /** The code of the table's character is the one written for a value, and is read back as it: by its own
      alphabet, and by detection, which settles on an alphabet at the two characters that differ. */
  lemma TableCodes(url: bool, v: nat)
    requires v < 64
    ensures |Table(url)| == 64
    ensures var c, asked := Table(url)[v] as int, if url then UrlFilenameSafe else Standard;
      && CharOf(url, v) == c && Value(CharOf(url, v)) == v
      && Base64Value(asked, CharOf(url, v)) == Found(asked, v)
      && Base64Value(Auto, CharOf(url, v)) == Found(if v < 62 then Auto else asked, v)
  {
    hide Table, Base64Value, Value;
    TableParts(url, v);
    CodeIsRead(url, v);
    if v < 26 {
      UpperCodes(v);
    } else if v < 52 {
      UpperCodes(v - 26);
    }
  }

  lemma CodeIsRead(url: bool, v: nat)
    requires v < 64
    ensures var c, asked := CharOf(url, v), if url then UrlFilenameSafe else Standard;
      && Value(c) == v
      && Base64Value(asked, c) == Found(asked, v)
      && Base64Value(Auto, c) == Found(if v < 62 then Auto else asked, v)
  {
  }

  /** Nothing else is in an alphabet, and the padding character is in neither. */
  lemma TableIsAlphabet(url: bool, c: Byte)
    ensures |Table(url)| == 64
    ensures InAlphabet(url, c) <==> exists v: nat :: v < 64 && Table(url)[v] as int == c
    ensures InAlphabet(url, c) <==> Base64Value(if url then UrlFilenameSafe else Standard, c).Found?
    ensures Base64Value(Auto, c).Found? <==> InAlphabet(false, c) || InAlphabet(true, c)
    ensures InAlphabet(url, c) ==> CharOf(url, Value(c)) == c
    ensures PAD == '=' as int && !InAlphabet(url, PAD)
  {
    TableCodes(url, Value(c));
    if v: nat :| v < 64 && Table(url)[v] as int == c {
      TableCodes(url, v);
    }
    hide Table;
  }

  predicate InAlphabet(url: bool, c: Byte) {
    IsAlphanumeric(c) || if url then IsDashOrUnderscore(c) else IsPlusOrSlash(c)
  }

  predicate AllIn(url: bool, s: seq<Byte>) {
    forall i :: 0 <= i < |s| ==> InAlphabet(url, s[i])
  }

  /** Which bodies a decoder accepts: those of its alphabet, or of either one when it detects. */
  predicate BodyAccepted(alphabet: Alphabet, body: seq<Byte>) {
    match alphabet
    case Auto => AllIn(false, body) || AllIn(true, body)
    case Standard => AllIn(false, body)
    case UrlFilenameSafe => AllIn(true, body)
  }

  /** What the alphabet in force records about the characters read so far. */
  ghost predicate Tracks(asked: Alphabet, current: Alphabet, read: seq<Byte>) {
    if asked != Auto then current == asked && BodyAccepted(asked, read)
    else match current
      case Auto => AllIn(false, read) && AllIn(true, read)
      case Standard => AllIn(false, read) && exists i :: 0 <= i < |read| && IsPlusOrSlash(read[i])
      case UrlFilenameSafe => AllIn(true, read) && exists i :: 0 <= i < |read| && IsDashOrUnderscore(read[i])
  }

  lemma TracksNext(asked: Alphabet, current: Alphabet, read: seq<Byte>, c: Byte)
    requires Tracks(asked, current, read)
    ensures var found := Base64Value(current, c);
      if found.Found? then found.value == Value(c) && Tracks(asked, found.alphabet, read + [c])
      else !BodyAccepted(asked, read + [c])
  {
    var longer := read + [c];
    assert longer[|read|] == c;
    assert forall i :: 0 <= i < |read| ==> longer[i] == read[i];
  }

  lemma AcceptedPrefix(alphabet: Alphabet, body: seq<Byte>, n: nat)
    requires n <= |body| && BodyAccepted(alphabet, body)
    ensures BodyAccepted(alphabet, body[..n])
  {
  }

  // ----- decoding -----

  /** The characters before the first padding character. */
  function Body(input: seq<Byte>): (r: seq<Byte>)
    ensures |r| <= |input|
  {
    if input == [] || input[0] == PAD then [] else [input[0]] + Body(input[1..])
  }

  lemma {:induction false} BodyIsPrefix(input: seq<Byte>, n: nat)
    requires n <= |input| && (forall i :: 0 <= i < n ==> input[i] != PAD)
    requires n == |input| || input[n] == PAD
    ensures Body(input) == input[..n]
  {
    if n > 0 {
      BodyIsPrefix(input[1..], n - 1);
      assert input[..n] == [input[0]] + input[1..][..n - 1];
    }
  }

  predicate AllPadding(s: seq<Byte>) { forall i :: 0 <= i < |s| ==> s[i] == PAD }

  /** When decoding succeeds. */
  predicate Accepted(input: seq<Byte>, alphabet: Alphabet, behaviour: Behaviour) {
    && BodyAccepted(alphabet, Body(input))
    && (behaviour == Moderate ==> AllPadding(input[|Body(input)|..]))
  }

  function Values(s: seq<Byte>): (r: seq<nat>)
    ensures |r| == |s| && forall i :: 0 <= i < |s| ==> r[i] == Value(s[i])
  {
    seq(|s|, i requires 0 <= i < |s| => Value(s[i]))
  }

  /** bytes holds the bits of the body, whole bytes of them. */
  ghost predicate IsDecoding(body: seq<Byte>, bytes: seq<Byte>) {
    && BitsOfBytes(bytes) <= BitsOfSextets(Values(body))
    && 6 * |body| - 8 * |bytes| < 8
  }

  /** The byte completed by the next sextet, as the code shifts it together. */
  function Emit(last: nat, bits: nat, part: nat): Byte
    requires 2 <= bits <= 6
  {
    BitOr(last * Pow2(8 - bits), part / Pow2(bits - 2)) % 256
  }

  lemma ByteRemainder(x: nat, q: nat, r: nat)
    requires x == 256 * q + r && r < 256
    ensures x % 256 == r
  {
  }

  lemma Emit2(last: nat, part: nat)
    requires last < 64 && part < 64
    ensures Emit(last, 2, part) == last % 4 * 64 + part
  {
    assert Pow2(6) == 64 && Pow2(0) == 1;
    OrDisjoint(last, part, 6);
    hide BitOr, Pow2;
    ByteRemainder(last * 64 + part, last / 4, last % 4 * 64 + part);
  }

  lemma Emit4(last: nat, part: nat)
    requires last < 64 && part < 64
    ensures Emit(last, 4, part) == last % 16 * 16 + part / 4
  {
    assert Pow2(4) == 16 && Pow2(2) == 4;
    var high, low, top := last / 16, last % 16, part / 4;
    OrDisjoint(last, top, 4);
    hide BitOr, Pow2;
    assert last == 16 * high + low && low < 16 && top < 16;
    ByteRemainder(last * 16 + top, high, low * 16 + top);
  }

  lemma Emit6(last: nat, part: nat)
    requires last < 64 && part < 64
    ensures Emit(last, 6, part) == last * 4 + part / 16
  {
    assert Pow2(2) == 4 && Pow2(4) == 16;
    OrDisjoint(last, part / 16, 2);
    hide BitOr, Pow2;
  }

  /** The pending low bits of last, completed by the leading bits of part. */
  lemma EmitBits(last: nat, bits: nat, part: nat)
    requires last < 64 && part < 64 && bits in {2, 4, 6}
    ensures ToBits(Emit(last, bits, part), 8) == ToBits(last, 6)[6 - bits..] + ToBits(part, 6)[..8 - bits]
  {
    hide ToBits, Emit;
    assert Pow2(2) == 4 && Pow2(4) == 16 && Pow2(6) == 64;
    if bits == 2 {
      Emit2(last, part);
      SplitBits(last, 2);
      BitsConcat(last % 4, part, 2, 6);
    } else if bits == 4 {
      Emit4(last, part);
      SplitBits(last, 4);
      SplitBits(part, 2);
      BitsConcat(last % 16, part / 4, 4, 4);
    } else {
      Emit6(last, part);
      SplitBits(part, 4);
      BitsConcat(last, part / 16, 6, 2);
    }
  }

  lemma SplitBits(x: nat, k: nat)
    requires x < 64 && k in {2, 4}
    ensures ToBits(x, 6)[..6 - k] == ToBits(x / Pow2(k), 6 - k)
    ensures ToBits(x, 6)[6 - k..] == ToBits(x % Pow2(k), k)
  {
    assert Pow2(2) == 4 && Pow2(4) == 16;
    BitsConcat(x / Pow2(k), x % Pow2(k), 6 - k, k);
  }

  /** Where the bit machine is after reading some body characters: the bytes written so far
      followed by the pending bits are exactly the bits read, and writing lags behind reading. */
  ghost predicate Progress(read: seq<Byte>, bytes: seq<Byte>, last: nat, bits: nat) {
    && bits in {0, 2, 4, 6} && last < 64
    && 8 * |bytes| + bits == 6 * |read|
    && BitsOfBytes(bytes) + ToBits(last, 6)[6 - bits..] == BitsOfSextets(Values(read))
  }

  lemma SextetsSnoc(read: seq<Byte>, c: Byte)
    ensures BitsOfSextets(Values(read + [c])) == BitsOfSextets(Values(read)) + ToBits(Value(c), 6)
  {
    assert Values(read + [c])[..|read|] == Values(read);
  }

  lemma BytesSnoc(bytes: seq<Byte>, b: Byte)
    ensures BitsOfBytes(bytes + [b]) == BitsOfBytes(bytes) + ToBits(b, 8)
  {
    assert (bytes + [b])[..|bytes|] == bytes;
  }

  lemma ProgressPends(read: seq<Byte>, bytes: seq<Byte>, last: nat, c: Byte)
    requires Progress(read, bytes, last, 0)
    ensures Progress(read + [c], bytes, Value(c), 6)
  {
    hide Value;
    SextetsSnoc(read, c);
    assert ToBits(Value(c), 6)[0..] == ToBits(Value(c), 6);
    assert BitsOfBytes(bytes) + [] == BitsOfBytes(bytes);
  }

  lemma ProgressEmits(read: seq<Byte>, bytes: seq<Byte>, last: nat, bits: nat, c: Byte)
    requires Progress(read, bytes, last, bits) && bits > 0
    ensures Progress(read + [c], bytes + [Emit(last, bits, Value(c))], Value(c), bits - 2)
  {
    hide Value, Emit, ToBits, BitsOfBytes, BitsOfSextets;
    SextetsSnoc(read, c);
    BytesSnoc(bytes, Emit(last, bits, Value(c)));
    EmitBits(last, bits, Value(c));
    var part := ToBits(Value(c), 6);
    assert part == part[..8 - bits] + part[8 - bits..];
    RegroupBits(BitsOfBytes(bytes), ToBits(last, 6)[6 - bits..], part, 8 - bits);
  }

  lemma RegroupBits(done: seq<bool>, pending: seq<bool>, part: seq<bool>, n: nat)
    requires n <= |part|
    ensures done + (pending + part[..n]) + part[n..] == done + pending + part
  {
  }

  lemma ProgressDone(read: seq<Byte>, bytes: seq<Byte>, last: nat, bits: nat)
    requires Progress(read, bytes, last, bits)
    ensures IsDecoding(read, bytes)
  {
  }

  lemma RejectedBody(input: seq<Byte>, alphabet: Alphabet, n: nat)
    requires n <= |input| && forall i :: 0 <= i < n ==> input[i] != PAD
    requires !BodyAccepted(alphabet, input[..n])
    ensures !BodyAccepted(alphabet, Body(input))
  {
    BodyHasPrefix(input, n);
    if BodyAccepted(alphabet, Body(input)) {
      AcceptedPrefix(alphabet, Body(input), n);
      assert false;
    }
  }

  lemma {:induction false} BodyHasPrefix(input: seq<Byte>, n: nat)
    requires n <= |input| && forall i :: 0 <= i < n ==> input[i] != PAD
    ensures n <= |Body(input)| && Body(input)[..n] == input[..n]
  {
    if n > 0 {
      BodyHasPrefix(input[1..], n - 1);
      assert input[..n] == [input[0]] + input[1..][..n - 1];
    }
  }

  /** The whole state of the decoding loop after reading some body characters. */
  ghost predicate Machine(asked: Alphabet, current: Alphabet, read: seq<Byte>, bytes: seq<Byte>, last: nat, bits: nat) {
    && Tracks(asked, current, read)
    && Progress(read, bytes, last, bits)
  }

  /** The output after a character of value part. */
  function Written(bytes: seq<Byte>, last: nat, bits: nat, part: nat): seq<Byte>
    requires bits <= 6
  {
    if bits + 6 >= 8 then bytes + [Emit(last, bits, part)] else bytes
  }

  /** How many of its bits are then pending. */
  function Pending(bits: nat): nat { if bits + 6 >= 8 then bits - 2 else bits + 6 }

  /** What a body character does: it is refused when no alphabet allows it; otherwise a byte is
      written if eight bits are there, and the character's bits become the pending ones. */
  lemma MachineNext(asked: Alphabet, current: Alphabet, read: seq<Byte>, bytes: seq<Byte>, last: nat, bits: nat, c: Byte)
    requires Machine(asked, current, read, bytes, last, bits)
    ensures bits in {0, 2, 4, 6} && 8 * |bytes| + bits == 6 * |read|
    ensures Base64Value(current, c).NotFound? ==> !BodyAccepted(asked, read + [c])
    ensures var found := Base64Value(current, c);
      found.Found? ==>
        Machine(asked, found.alphabet, read + [c], Written(bytes, last, bits, found.value), found.value, Pending(bits))
  {
    TracksNext(asked, current, read, c);
    hide Base64Value, Value, BodyAccepted, Tracks;
    if bits + 6 >= 8 {
      ProgressEmits(read, bytes, last, bits, c);
    } else {
      ProgressPends(read, bytes, last, c);
    }
  }

  /** The loop of decode at input index i: no padding yet, and the machine has read input[..i]. */
  ghost predicate AtIndex(input: seq<Byte>, asked: Alphabet, i: nat, current: Alphabet, bytes: seq<Byte>,
                          last: nat, bits: nat)
  {
    && i <= |input| && bits <= 6 && 8 * |bytes| + bits == 6 * i
    && (forall j :: 0 <= j < i ==> input[j] != PAD)
    && Machine(asked, current, input[..i], bytes, last, bits)
  }

  lemma AtStart(input: seq<Byte>, asked: Alphabet)
    ensures AtIndex(input, asked, 0, asked, [], 0, 0)
  {
  }

  lemma AtNext(input: seq<Byte>, asked: Alphabet, i: nat, current: Alphabet, bytes: seq<Byte>, last: nat, bits: nat)
    requires AtIndex(input, asked, i, current, bytes, last, bits) && i < |input| && input[i] != PAD
    ensures bits <= 6
    ensures var found := Base64Value(current, input[i]);
      if found.NotFound? then !BodyAccepted(asked, Body(input))
      else AtIndex(input, asked, i + 1, found.alphabet, Written(bytes, last, bits, found.value), found.value, Pending(bits))
  {
    hide Base64Value, BodyAccepted, Body, Machine, Emit;
    assert input[..i + 1] == input[..i] + [input[i]];
    MachineNext(asked, current, input[..i], bytes, last, bits, input[i]);
    if Base64Value(current, input[i]).NotFound? {
      RejectedBody(input, asked, i + 1);
    }
  }

  lemma AtEnd(input: seq<Byte>, asked: Alphabet, i: nat, current: Alphabet, bytes: seq<Byte>, last: nat, bits: nat)
    requires AtIndex(input, asked, i, current, bytes, last, bits)
    requires i == |input| || input[i] == PAD
    ensures i == |Body(input)| && BodyAccepted(asked, Body(input)) && IsDecoding(Body(input), bytes)
  {
    BodyIsPrefix(input, i);
    ProgressDone(input[..i], bytes, last, bits);
  }

  /** "Enough bits for one byte": write it and keep two bits fewer, or wait for more. */
  method WriteSextet(bytes: seq<Byte>, last: nat, bits: nat, part: nat) returns (written: seq<Byte>, pending: nat)
    requires bits <= 6
    ensures written == Written(bytes, last, bits, part) && pending == Pending(bits)
  {
    if bits + 6 >= 8 {
      written, pending := bytes + [Emit(last, bits, part)], bits - 2;
    } else {
      written, pending := bytes, bits + 6;
    }
  }

  /** The first loop of decode, written to an output of its own. */
  method DecodeBody(input: seq<Byte>, alphabet: Alphabet) returns (r: Result, next: nat)
    ensures r.Decoded? <==> BodyAccepted(alphabet, Body(input))
    ensures r.Decoded? ==> next == |Body(input)| && IsDecoding(Body(input), r.bytes)
  {
    var current, accepted, bytes := alphabet, true, [];
    var last: nat, bits: nat, i: nat := 0, 0, 0;
    AtStart(input, alphabet);
    hide *;
    while accepted && i < |input| && input[i] != PAD
      invariant i <= |input|
      invariant accepted ==> AtIndex(input, alphabet, i, current, bytes, last, bits)
      invariant !accepted ==> !BodyAccepted(alphabet, Body(input))
      decreases accepted, |input| - i
    {
      AtNext(input, alphabet, i, current, bytes, last, bits);
      var found := Base64Value(current, input[i]);
      if found.NotFound? {
        accepted := false;
      } else {
        bytes, bits := WriteSextet(bytes, last, bits, found.value);
        current, last, i := found.alphabet, found.value, i + 1;
      }
    }
    if accepted {
      AtEnd(input, alphabet, i, current, bytes, last, bits);
    }
    r, next := if accepted then Decoded(bytes) else InvalidCharacter, i;
  }

  /** The second loop of decode: nothing but padding may follow the body. */
  method OnlyPadding(input: seq<Byte>, from: nat) returns (ok: bool)
    requires from <= |input|
    ensures ok <==> AllPadding(input[from..])
  {
    for i := from to |input|
      invariant forall j :: from <= j < i ==> input[j] == PAD
    {
      if input[i] != PAD {
        assert input[from..][i - from] == input[i];
        return false;
      }
    }
    return true;
  }

  /** decode: it succeeds exactly on the accepted inputs, with the bits of the body. */
  method Decode(input: seq<Byte>, alphabet: Alphabet, behaviour: Behaviour) returns (r: Result)
    ensures r.Decoded? <==> Accepted(input, alphabet, behaviour)
    ensures r.Decoded? ==> IsDecoding(Body(input), r.bytes)
  {
    var next;
    r, next := DecodeBody(input, alphabet);
    hide BodyAccepted, Body, AllPadding, IsDecoding;
    if r.Decoded? && behaviour != Loose {
      var ok := OnlyPadding(input, next);
      if !ok { r := InvalidCharacter; }
    }
  }

  // ----- decoding in place -----

  /** Whole bytes of the body's bits: the decoded bytes are determined by the body. */
  lemma DecodingUnique(body: seq<Byte>, a: seq<Byte>, b: seq<Byte>)
    requires IsDecoding(body, a) && IsDecoding(body, b)
    ensures a == b
  {
    var bits := BitsOfSextets(Values(body));
    hide BitsOfBytes, BitsOfSextets, Values;
    assert BitsOfBytes(a) == bits[..8 * |a|] && BitsOfBytes(b) == bits[..8 * |b|];
    BitsOfBytesInjective(a, b);
  }

  /** max_decode_size */
  function MaxDecodeSize(size: nat): nat {
    (size / 4 + if size % 4 != 0 then 1 else 0) * 3
  }

  lemma MaxSize(n: nat)
    ensures 3 * n <= 4 * MaxDecodeSize(n) < 3 * n + 12 && MaxDecodeSize(n) % 3 == 0
  {
  }

  /** Three bytes for four characters, rounded down, and never more than announced. */
  lemma DecodedLength(input: seq<Byte>, bytes: seq<Byte>)
    requires IsDecoding(Body(input), bytes)
    ensures |bytes| == 3 * |Body(input)| / 4 <= MaxDecodeSize(|input|)
    ensures 3 * |input| <= 4 * MaxDecodeSize(|input|) < 3 * |input| + 12 && MaxDecodeSize(|input|) % 3 == 0
  {
    MaxSize(|input|);
    hide *;
    assert 8 * |bytes| <= 6 * |Body(input)|;
  }

  /** decode with the output at the start of the input: writing never overtakes reading, so the
      characters still to be read are the original ones. */
  method DecodeBodyInPlace(buf: array<Byte>, alphabet: Alphabet) returns (accepted: bool, written: nat, next: nat)
    modifies buf
    ensures accepted <==> BodyAccepted(alphabet, Body(old(buf[..])))
    ensures accepted ==>
      && next == |Body(old(buf[..]))| && written <= next <= buf.Length
      && IsDecoding(Body(old(buf[..])), buf[..written])
      && buf[next..] == old(buf[next..])
  {
    hide *;
    ghost var input, bytes := buf[..], [];
    var current := alphabet;
    var last: nat, bits: nat, i: nat := 0, 0, 0;
    accepted, written := true, 0;
    AtStart(input, alphabet);
    OverlayStart(input);
    while accepted && i < buf.Length && buf[i] != PAD
      invariant i <= buf.Length
      invariant accepted ==> AtIndex(input, alphabet, i, current, bytes, last, bits)
      invariant accepted ==> Overlay(buf[..], input, i, written, bytes)
      invariant !accepted ==> !BodyAccepted(alphabet, Body(input))
      decreases accepted, buf.Length - i
    {
      OverlayAhead(buf[..], input, i, written, bytes);
      AtNext(input, alphabet, i, current, bytes, last, bits);
      var found := Base64Value(current, buf[i]);
      if found.NotFound? {
        accepted := false;
      } else {
        ghost var before, at, newBytes := buf[..], written, Written(bytes, last, bits, found.value);
        written, bits := StoreSextet(buf, written, last, bits, found.value);
        OverlayNext(before, buf[..], input, i, at, written, bytes, newBytes);
        bytes := newBytes;
        current, last, i := found.alphabet, found.value, i + 1;
      }
    }
    next := i;
    if accepted {
      OverlayAhead(buf[..], input, i, written, bytes);
      AtEnd(input, alphabet, i, current, bytes, last, bits);
    }
  }

  /** The buffer partway: decoded bytes at the front, and from index i on the original input. */
  ghost predicate Overlay(buf: seq<Byte>, input: seq<Byte>, i: nat, written: nat, bytes: seq<Byte>) {
    && written <= i <= |buf| == |input|
    && buf[..written] == bytes
    && buf[i..] == input[i..]
  }

  lemma OverlayStart(input: seq<Byte>)
    ensures Overlay(input, input, 0, 0, [])
  {
  }

  lemma OverlayAhead(buf: seq<Byte>, input: seq<Byte>, i: nat, written: nat, bytes: seq<Byte>)
    requires Overlay(buf, input, i, written, bytes)
    ensures |buf| == |input| && written <= i <= |buf| && buf[..written] == bytes && buf[i..] == input[i..]
    ensures i < |buf| ==> buf[i] == input[i]
  {
    if i < |buf| {
      assert buf[i..][0] == input[i..][0];
    }
  }

  lemma OverlayNext(before: seq<Byte>, after: seq<Byte>, input: seq<Byte>, i: nat, at: nat, written: nat,
                    bytes: seq<Byte>, newBytes: seq<Byte>)
    requires Overlay(before, input, i, at, bytes) && i < |before| == |after|
    requires at <= written <= at + 1 && after[..written] == newBytes && after[at + 1..] == before[at + 1..]
    ensures Overlay(after, input, i + 1, written, newBytes)
  {
    assert before[i + 1..] == before[i..][1..] && input[i + 1..] == input[i..][1..];
    assert after[i + 1..] == after[at + 1..][i - at..] && before[i + 1..] == before[at + 1..][i - at..];
  }

  /** At each loop head the bytes written number at most three quarters of the characters read. */
  lemma LagsBehind(input: seq<Byte>, asked: Alphabet, i: nat, current: Alphabet, bytes: seq<Byte>, last: nat, bits: nat)
    requires AtIndex(input, asked, i, current, bytes, last, bits)
    ensures |bytes| <= 3 * i / 4
  {
  }

  /** Writes the next byte over the buffer when eight bits are there. */
  method StoreSextet(buf: array<Byte>, at: nat, last: nat, bits: nat, part: nat) returns (written: nat, pending: nat)
    requires at < buf.Length && bits <= 6
    modifies buf
    ensures pending == Pending(bits) && at <= written <= at + 1
    ensures buf[..written] == Written(old(buf[..at]), last, bits, part)
    ensures buf[at + 1..] == old(buf[at + 1..])
  {
    if bits + 6 >= 8 {
      buf[at] := Emit(last, bits, part);
      written, pending := at + 1, bits - 2;
    } else {
      written, pending := at, bits + 6;
    }
  }

  datatype InPlaceResult = Size(n: nat) | Refused

  /** decode_inplace: the same outcome as decoding to a fresh output, for every input. */
  method DecodeInPlace(buf: array<Byte>, alphabet: Alphabet, behaviour: Behaviour) returns (r: InPlaceResult)
    modifies buf
    ensures r.Size? <==> Accepted(old(buf[..]), alphabet, behaviour)
    ensures r.Size? ==> r.n <= buf.Length && IsDecoding(Body(old(buf[..])), buf[..r.n])
  {
    var accepted, written, next := DecodeBodyInPlace(buf, alphabet);
    hide BodyAccepted, Body, AllPadding, IsDecoding;
    r := if accepted then Size(written) else Refused;
    if accepted && behaviour != Loose {
      var ok := OnlyPadding(buf[..], next);
      if !ok { r := Refused; }
    }
  }

  // ----- encoding -----

  /** required_encode_size */
  function RequiredEncodeSize(size: nat): nat {
    (size / 3 + if size % 3 != 0 then 1 else 0) * 4
  }

  /** How many characters carry bits: enough sextets for 8n bits. */
  function SextetCount(n: nat): nat { (8 * n + 5) / 6 }

  function Zeros(n: nat): (r: seq<bool>)
    ensures |r| == n
  {
    seq(n, _ => false)
  }

  /** The encoding of input: its bits, filled up with zeros to whole sextets, as characters of one
      alphabet, then padding up to a multiple of four characters. */
  ghost predicate IsEncoding(input: seq<Byte>, out: seq<Byte>, url: bool) {
    var m := SextetCount(|input|);
    && m <= |out| == RequiredEncodeSize(|input|)
    && AllIn(url, out[..m]) && AllPadding(out[m..])
    && BitsOfSextets(Values(out[..m])) == BitsOfBytes(input) + Zeros(6 * m - 8 * |input|)
  }

  lemma CharOfValue(url: bool, v: nat)
    requires v < 64
    ensures Value(CharOf(url, v)) == v && InAlphabet(url, CharOf(url, v))
  {
  }

  /** The four table indices of a group, as the code masks and shifts them together. */
  function First(i0: Byte): nat { i0 / 4 % 64 }

  function Second(i0: Byte, i1: Byte): nat { BitOr(i0 % 4 * 16, i1 / 16 % 16) }

  function Third(i1: Byte, i2: Byte): nat { BitOr(i1 % 16 * 4, i2 / 64 % 4) }

  function Fourth(i2: Byte): nat { i2 % 64 }

  lemma SplitByte(x: Byte)
    ensures ToBits(x, 8) == ToBits(x / 4, 6) + ToBits(x % 4, 2)
    ensures ToBits(x, 8) == ToBits(x / 16, 4) + ToBits(x % 16, 4)
    ensures ToBits(x, 8) == ToBits(x / 64, 2) + ToBits(x % 64, 6)
  {
    assert Pow2(2) == 4 && Pow2(4) == 16 && Pow2(6) == 64;
    hide ToBits, Pow2;
    BitsConcat(x / 4, x % 4, 6, 2);
    BitsConcat(x / 16, x % 16, 4, 4);
    BitsConcat(x / 64, x % 64, 2, 6);
  }

  lemma FirstBits(i0: Byte)
    ensures First(i0) == i0 / 4 < 64
    ensures ToBits(i0, 8) == ToBits(First(i0), 6) + ToBits(i0 % 4, 2)
  {
    hide ToBits;
    SplitByte(i0);
  }

  lemma SecondBits(i0: Byte, i1: Byte)
    ensures Second(i0, i1) == i0 % 4 * 16 + i1 / 16 < 64
    ensures ToBits(Second(i0, i1), 6) == ToBits(i0 % 4, 2) + ToBits(i1 / 16, 4)
    ensures ToBits(i1, 8) == ToBits(i1 / 16, 4) + ToBits(i1 % 16, 4)
  {
    assert Pow2(4) == 16 && i1 / 16 % 16 == i1 / 16;
    hide ToBits, Pow2, BitOr;
    SplitByte(i1);
    OrDisjoint(i0 % 4, i1 / 16, 4);
    BitsConcat(i0 % 4, i1 / 16, 2, 4);
  }

  lemma ThirdBits(i1: Byte, i2: Byte)
    ensures Third(i1, i2) == i1 % 16 * 4 + i2 / 64 < 64
    ensures ToBits(Third(i1, i2), 6) == ToBits(i1 % 16, 4) + ToBits(i2 / 64, 2)
    ensures ToBits(i2, 8) == ToBits(i2 / 64, 2) + ToBits(Fourth(i2), 6)
  {
    assert Pow2(2) == 4 && i2 / 64 % 4 == i2 / 64;
    hide ToBits, Pow2, BitOr;
    SplitByte(i2);
    OrDisjoint(i1 % 16, i2 / 64, 2);
    BitsConcat(i1 % 16, i2 / 64, 4, 2);
  }

  lemma {:induction false} ZeroBits(w: nat)
    ensures ToBits(0, w) == Zeros(w)
  {
    if w > 0 {
      ZeroBits(w - 1);
    }
  }

  lemma SecondAlone(i0: Byte)
    ensures Second(i0, 0) < 64
    ensures ToBits(Second(i0, 0), 6) == ToBits(i0 % 4, 2) + Zeros(4)
  {
    var zero: Byte := 0;
    SecondBits(i0, zero);
    ZeroBits(4);
    assert zero / 16 == 0;
  }

  lemma ThirdAlone(i1: Byte)
    ensures Third(i1, 0) < 64
    ensures ToBits(Third(i1, 0), 6) == ToBits(i1 % 16, 4) + Zeros(2)
  {
    var zero: Byte := 0;
    ThirdBits(i1, zero);
    ZeroBits(2);
    assert zero / 64 == 0;
  }

  /** The sextets of one group of one, two or three bytes. */
  function GroupSextets(group: seq<Byte>): seq<nat>
    requires 1 <= |group| <= 3
  {
    if |group| == 1 then [First(group[0]), Second(group[0], 0)]
    else if |group| == 2 then [First(group[0]), Second(group[0], group[1]), Third(group[1], 0)]
    else [First(group[0]), Second(group[0], group[1]), Third(group[1], group[2]), Fourth(group[2])]
  }

  /** How many zero bits fill the last sextet of a group. */
  function FillBits(size: nat): nat
    requires 1 <= size <= 3
  {
    if size == 1 then 4 else if size == 2 then 2 else 0
  }

  ghost predicate AreSextets(vs: seq<nat>) {
    forall i :: 0 <= i < |vs| ==> vs[i] < 64
  }

  lemma BitsOfFew(v: nat, w: nat, x: nat, y: nat)
    ensures BitsOfSextets([v, w]) == ToBits(v, 6) + ToBits(w, 6)
    ensures BitsOfSextets([v, w, x]) == ToBits(v, 6) + ToBits(w, 6) + ToBits(x, 6)
    ensures BitsOfSextets([v, w, x, y]) == ToBits(v, 6) + ToBits(w, 6) + ToBits(x, 6) + ToBits(y, 6)
  {
    hide ToBits;
    assert [v, w][..1] == [v] && [v, w, x][..2] == [v, w] && [v, w, x, y][..3] == [v, w, x];
  }

  lemma BytesOfFew(v: Byte, w: Byte, x: Byte)
    ensures BitsOfBytes([v]) == ToBits(v, 8)
    ensures BitsOfBytes([v, w]) == ToBits(v, 8) + ToBits(w, 8)
    ensures BitsOfBytes([v, w, x]) == ToBits(v, 8) + ToBits(w, 8) + ToBits(x, 8)
  {
    hide ToBits;
    assert [v, w][..1] == [v] && [v, w, x][..2] == [v, w];
  }

  lemma Regroup(a: seq<bool>, b: seq<bool>, c: seq<bool>, d: seq<bool>, e: seq<bool>)
    ensures a + (b + c) + (d + e) == (a + b) + (c + d) + e
    ensures a + (b + e) == (a + b) + e
  {
  }

  /** A group's sextets carry its bytes' bits, then the fill. */
  lemma GroupOfOne(i0: Byte)
    ensures AreSextets(GroupSextets([i0]))
    ensures BitsOfSextets(GroupSextets([i0])) == BitsOfBytes([i0]) + Zeros(4)
  {
    FirstBits(i0);
    SecondAlone(i0);
    BitsOfFew(First(i0), Second(i0, 0), 0, 0);
    BytesOfFew(i0, 0, 0);
    hide ToBits, First, Second, Zeros, BitsOfBytes, BitsOfSextets;
    Regroup(ToBits(First(i0), 6), ToBits(i0 % 4, 2), [], [], Zeros(4));
  }

  lemma GroupOfTwo(i0: Byte, i1: Byte)
    ensures AreSextets(GroupSextets([i0, i1]))
    ensures BitsOfSextets(GroupSextets([i0, i1])) == BitsOfBytes([i0, i1]) + Zeros(2)
  {
    FirstBits(i0);
    SecondBits(i0, i1);
    ThirdAlone(i1);
    BitsOfFew(First(i0), Second(i0, i1), Third(i1, 0), 0);
    BytesOfFew(i0, i1, 0);
    hide ToBits, First, Second, Third, Zeros, BitsOfBytes, BitsOfSextets;
    Regroup(ToBits(First(i0), 6), ToBits(i0 % 4, 2), ToBits(i1 / 16, 4), ToBits(i1 % 16, 4), Zeros(2));
  }

  lemma GroupOfThree(i0: Byte, i1: Byte, i2: Byte)
    ensures AreSextets(GroupSextets([i0, i1, i2]))
    ensures BitsOfSextets(GroupSextets([i0, i1, i2])) == BitsOfBytes([i0, i1, i2])
  {
    FirstBits(i0);
    SecondBits(i0, i1);
    ThirdBits(i1, i2);
    BitsOfFew(First(i0), Second(i0, i1), Third(i1, i2), Fourth(i2));
    BytesOfFew(i0, i1, i2);
    hide ToBits, First, Second, Third, Zeros, BitsOfBytes, BitsOfSextets;
  }

  lemma GroupBits(group: seq<Byte>)
    requires 1 <= |group| <= 3
    ensures AreSextets(GroupSextets(group)) && |GroupSextets(group)| == |group| + 1
    ensures BitsOfSextets(GroupSextets(group)) == BitsOfBytes(group) + Zeros(FillBits(|group|))
  {
    hide BitsOfSextets, BitsOfBytes, First, Second, Third, Fourth;
    if |group| == 1 {
      GroupOfOne(group[0]);
      assert group == [group[0]];
    } else if |group| == 2 {
      GroupOfTwo(group[0], group[1]);
      assert group == [group[0], group[1]];
    } else {
      GroupOfThree(group[0], group[1], group[2]);
      assert group == [group[0], group[1], group[2]];
    }
  }

  /** The characters of some sextets. */
  function CharsOf(url: bool, vs: seq<nat>): (r: seq<Byte>)
    requires AreSextets(vs)
    ensures |r| == |vs|
  {
    seq(|vs|, i requires 0 <= i < |vs| => CharOf(url, vs[i]))
  }

  lemma CharsOfValues(url: bool, vs: seq<nat>)
    requires AreSextets(vs)
    ensures Values(CharsOf(url, vs)) == vs && AllIn(url, CharsOf(url, vs))
    ensures forall i :: 0 <= i < |vs| ==> CharsOf(url, vs)[i] != PAD
  {
    forall i | 0 <= i < |vs| ensures Value(CharsOf(url, vs)[i]) == vs[i] && InAlphabet(url, CharsOf(url, vs)[i]) {
      CharOfValue(url, vs[i]);
    }
  }

  function Padding(n: nat): (r: seq<Byte>)
    ensures |r| == n && AllPadding(r)
  {
    seq(n, _ => PAD)
  }

  /** One turn of the encoding loop: up to three bytes are read, four characters are written. */
  method EncodeGroup(input: seq<Byte>, from: nat, url: bool) returns (written: seq<Byte>, next: nat)
    requires from < |input|
    ensures next == if from + 3 <= |input| then from + 3 else |input|
    ensures 1 <= next - from <= 3 && AreSextets(GroupSextets(input[from..next]))
    ensures written == CharsOf(url, GroupSextets(input[from..next])) + Padding(3 - (next - from))
  {
    GroupBits(input[from..if from + 3 <= |input| then from + 3 else |input|]);
    hide First, Second, Third, Fourth, CharOf;
    var i0 := input[from];
    next := from + 1;
    written := [];
    if next < |input| {
      var i1 := input[next];
      next := next + 1;
      if next < |input| {
        var i2 := input[next];
        next := next + 1;
        var group := input[from..next];
        assert GroupSextets(group) == [First(i0), Second(i0, i1), Third(i1, i2), Fourth(i2)];
        written := [CharOf(url, GroupSextets(group)[0]), CharOf(url, GroupSextets(group)[1]),
                    CharOf(url, GroupSextets(group)[2]), CharOf(url, GroupSextets(group)[3])];
      } else {
        var group := input[from..next];
        assert GroupSextets(group) == [First(i0), Second(i0, i1), Third(i1, 0)];
        written := [CharOf(url, GroupSextets(group)[0]), CharOf(url, GroupSextets(group)[1]),
                    CharOf(url, GroupSextets(group)[2]), PAD];
      }
    } else {
      var group := input[from..next];
      assert GroupSextets(group) == [First(i0), Second(i0, 0)];
      written := [CharOf(url, GroupSextets(group)[0]), CharOf(url, GroupSextets(group)[1]), PAD, PAD];
    }
  }

  lemma {:induction false} BytesConcat(a: seq<Byte>, b: seq<Byte>)
    ensures BitsOfBytes(a + b) == BitsOfBytes(a) + BitsOfBytes(b)
  {
    if b == [] {
      assert a + b == a && BitsOfBytes(a) + [] == BitsOfBytes(a);
    } else {
      var n := |b| - 1;
      assert (a + b)[..|a| + n] == a + b[..n];
      BytesConcat(a, b[..n]);
    }
  }

  lemma {:induction false} SextetsConcat(a: seq<nat>, b: seq<nat>)
    ensures BitsOfSextets(a + b) == BitsOfSextets(a) + BitsOfSextets(b)
  {
    if b == [] {
      assert a + b == a && BitsOfSextets(a) + [] == BitsOfSextets(a);
    } else {
      var n := |b| - 1;
      assert (a + b)[..|a| + n] == a + b[..n];
      SextetsConcat(a, b[..n]);
    }
  }

  /** The characters carry the bits of the bytes read, then the given number of zeros. */
  ghost predicate Carries(read: seq<Byte>, chars: seq<Byte>, zeros: nat, url: bool) {
    && AllIn(url, chars)
    && BitsOfSextets(Values(chars)) == BitsOfBytes(read) + Zeros(zeros)
  }

  lemma CarriesGroup(read: seq<Byte>, chars: seq<Byte>, group: seq<Byte>, url: bool)
    requires Carries(read, chars, 0, url) && 1 <= |group| <= 3 && AreSextets(GroupSextets(group))
    ensures Carries(read + group, chars + CharsOf(url, GroupSextets(group)), FillBits(|group|), url)
  {
    var vs := GroupSextets(group);
    GroupBits(group);
    CharsOfValues(url, vs);
    hide GroupSextets, CharsOf, BitsOfBytes, BitsOfSextets, FillBits;
    BytesConcat(read, group);
    SextetsConcat(Values(chars), vs);
    assert Values(chars + CharsOf(url, vs)) == Values(chars) + vs;
    Regroup(BitsOfBytes(read), BitsOfBytes(group), [], [], Zeros(FillBits(|group|)));
    assert BitsOfBytes(read) + Zeros(0) == BitsOfBytes(read);
  }

  /** The state of the encoding loop at input index i: chars without padding, then pad more. */
  ghost predicate EncodedUpTo(input: seq<Byte>, i: nat, out: seq<Byte>, chars: seq<Byte>, fill: nat, pad: nat, url: bool) {
    && i <= |input| && (i < |input| ==> i % 3 == 0 && fill == pad == 0)
    && |chars| == SextetCount(i) && |out| == RequiredEncodeSize(i)
    && fill == 6 * SextetCount(i) - 8 * i
    && Carries(input[..i], chars, fill, url)
    && out == chars + Padding(pad)
  }

  lemma NothingEncoded(input: seq<Byte>, url: bool)
    ensures EncodedUpTo(input, 0, [], [], 0, 0, url)
  {
    assert Zeros(0) == [] && Padding(0) == [];
  }

  lemma EncodedNext(input: seq<Byte>, i: nat, next: nat, size: nat, out: seq<Byte>, chars: seq<Byte>, more: seq<Byte>,
                    url: bool)
    requires EncodedUpTo(input, i, out, chars, 0, 0, url) && i % 3 == 0
    requires 1 <= size <= 3 && next == i + size <= |input| && (size < 3 ==> next == |input|)
    requires AreSextets(GroupSextets(input[i..next])) && more == CharsOf(url, GroupSextets(input[i..next]))
    ensures EncodedUpTo(input, next, out + (more + Padding(3 - size)), chars + more, FillBits(size), 3 - size, url)
  {
    hide GroupSextets, SextetCount, RequiredEncodeSize, CharsOf, Carries, Padding, FillBits;
    var group := input[i..next];
    GroupSizes(i, size);
    GroupBits(group);
    assert input[..next] == input[..i] + group;
    PadLater(out, chars, more, 3 - size);
    CarriesGroup(input[..i], chars, group, url);
  }

  lemma PadLater(out: seq<Byte>, chars: seq<Byte>, more: seq<Byte>, pad: nat)
    requires out == chars + Padding(0)
    ensures out == chars && out + (more + Padding(pad)) == chars + more + Padding(pad)
  {
  }

  lemma GroupSizes(i: nat, size: nat)
    requires i % 3 == 0 && 1 <= size <= 3
    ensures SextetCount(i) == RequiredEncodeSize(i)
    ensures 6 * SextetCount(i) - 8 * i == 0
    ensures RequiredEncodeSize(i + size) == RequiredEncodeSize(i) + 4
    ensures SextetCount(i + size) == SextetCount(i) + size + 1
    ensures 6 * SextetCount(i + size) - 8 * (i + size) == FillBits(size)
  {
  }

  /** encode */
  method Encode(input: seq<Byte>, alphabet: Alphabet) returns (out: seq<Byte>)
    ensures IsEncoding(input, out, alphabet == UrlFilenameSafe)
  {
    var url := alphabet == UrlFilenameSafe;
    var i: nat := 0;
    out := [];
    ghost var chars: seq<Byte> := [];
    ghost var fill: nat, pad: nat := 0, 0;
    NothingEncoded(input, url);
    hide *;
    while i < |input|
      invariant i <= |input| && (i < |input| ==> i % 3 == 0 && fill == pad == 0)
      invariant EncodedUpTo(input, i, out, chars, fill, pad, url)
    {
      var written, next := EncodeGroup(input, i, url);
      ghost var more := CharsOf(url, GroupSextets(input[i..next]));
      EncodedGroup(input, i, next, out, chars, fill, pad, more, url);
      fill, pad, chars := FillBits(next - i), 3 - (next - i), chars + more;
      out, i := out + written, next;
    }
    EncodedAll(input, out, chars, fill, pad, url);
  }

  /** One turn of the loop keeps its invariant. */
  lemma EncodedGroup(input: seq<Byte>, i: nat, next: nat, out: seq<Byte>, chars: seq<Byte>, fill: nat, pad: nat,
                     more: seq<Byte>, url: bool)
    requires i < |input| && i % 3 == 0 && fill == pad == 0 && EncodedUpTo(input, i, out, chars, fill, pad, url)
    requires next == if i + 3 <= |input| then i + 3 else |input|
    requires AreSextets(GroupSextets(input[i..next])) && more == CharsOf(url, GroupSextets(input[i..next]))
    ensures EncodedUpTo(input, next, out + (more + Padding(3 - (next - i))), chars + more,
                        FillBits(next - i), 3 - (next - i), url)
    ensures next < |input| ==> next % 3 == 0 && FillBits(next - i) == 3 - (next - i) == 0
  {
    assert next - i == 3 ==> FillBits(next - i) == 0;
    hide *;
    EncodedNext(input, i, next, next - i, out, chars, more, url);
  }

  lemma EncodedAll(input: seq<Byte>, out: seq<Byte>, chars: seq<Byte>, fill: nat, pad: nat, url: bool)
    requires EncodedUpTo(input, |input|, out, chars, fill, pad, url)
    ensures IsEncoding(input, out, url)
  {
    assert input[..|input|] == input;
    assert out[..SextetCount(|input|)] == chars;
  }

  // ----- the round trip -----

  lemma AlphabetHasNoPadding(url: bool, s: seq<Byte>)
    requires AllIn(url, s)
    ensures forall i :: 0 <= i < |s| ==> s[i] != PAD
  {
  }

  /** Every byte string comes back, for both alphabets, with the alphabet given or detected, in
      both behaviours, and with any part of the trailing padding stripped: such input is accepted,
      and the only bytes it decodes to are the original ones. */
  lemma RoundTrip(input: seq<Byte>, out: seq<Byte>, url: bool, decoder: Alphabet, behaviour: Behaviour,
                  length: nat, bytes: seq<Byte>)
    requires IsEncoding(input, out, url) && (decoder == Auto || decoder == if url then UrlFilenameSafe else Standard)
    requires SextetCount(|input|) <= length <= |out|
    ensures Accepted(out[..length], decoder, behaviour)
    ensures IsDecoding(Body(out[..length]), bytes) <==> bytes == input
  {
    var m := SextetCount(|input|);
    var sent, chars := out[..length], out[..m];
    AlphabetHasNoPadding(url, chars);
    assert sent[..m] == chars;
    assert forall i :: 0 <= i < m ==> sent[i] == chars[i];
    assert m < length ==> sent[m] == out[m..][0];
    BodyIsPrefix(sent, m);
    forall i | 0 <= i < |sent[m..]| ensures sent[m..][i] == PAD {
      assert sent[m..][i] == out[m..][i];
    }
    OriginalDecodes(input, chars);
    if IsDecoding(chars, bytes) {
      DecodingUnique(chars, bytes, input);
    }
  }

  /** Sextets are determined by their bits. */
  lemma {:induction false} SextetsInjective(xs: seq<nat>, ys: seq<nat>)
    requires AreSextets(xs) && AreSextets(ys) && BitsOfSextets(xs) == BitsOfSextets(ys)
    ensures xs == ys
  {
    assert |xs| == |ys|;
    if xs != [] {
      var n := |xs| - 1;
      assert BitsOfSextets(xs)[..6 * n] == BitsOfSextets(xs[..n]) && BitsOfSextets(ys)[..6 * n] == BitsOfSextets(ys[..n]);
      assert BitsOfSextets(xs)[6 * n..] == ToBits(xs[n], 6) && BitsOfSextets(ys)[6 * n..] == ToBits(ys[n], 6);
      SextetsInjective(xs[..n], ys[..n]);
      assert Pow2(6) == 64;
      ToBitsInjective(xs[n], ys[n], 6);
      assert xs == xs[..n] + [xs[n]] && ys == ys[..n] + [ys[n]];
    }
  }

  /** A byte string has one encoding in each alphabet. */
  lemma EncodingUnique(input: seq<Byte>, a: seq<Byte>, b: seq<Byte>, url: bool)
    requires IsEncoding(input, a, url) && IsEncoding(input, b, url)
    ensures a == b
  {
    var m := SextetCount(|input|);
    hide BitsOfSextets, BitsOfBytes, InAlphabet, CharOf, Value, SextetCount, RequiredEncodeSize;
    SextetsInjective(Values(a[..m]), Values(b[..m]));
    forall i | 0 <= i < |a|
      ensures a[i] == b[i]
    {
      if i < m {
        TableIsAlphabet(url, a[i]);
        TableIsAlphabet(url, b[i]);
        assert a[..m][i] == a[i] && b[..m][i] == b[i];
        assert Values(a[..m])[i] == Values(b[..m])[i];
      } else {
        assert a[m..][i - m] == a[i] && b[m..][i - m] == b[i];
      }
    }
  }

  /** "M" is "TQ==", in both alphabets and both ways. */
  lemma LetterM(url: bool, out: seq<Byte>, decoder: Alphabet, behaviour: Behaviour, bytes: seq<Byte>)
    requires decoder == Auto || decoder == if url then UrlFilenameSafe else Standard
    ensures IsEncoding([77], out, url) <==> out == [84, 81, 61, 61]
    ensures Accepted([84, 81, 61, 61], decoder, behaviour)
    ensures IsDecoding(Body([84, 81, 61, 61]), bytes) <==> bytes == [77]
  {
    var code := [84, 81, 61, 61];
    EncodedM(url);
    hide *;
    if IsEncoding([77], out, url) {
      EncodingUnique([77], out, code, url);
    }
    SizeOfOne();
    assert code[..4] == code;
    RoundTrip([77], code, url, decoder, behaviour, 4, bytes);
  }

  lemma SizeOfOne()
    ensures SextetCount(1) == 2
  {
  }

  lemma EncodedM(url: bool)
    ensures IsEncoding([77], [84, 81, 61, 61], url)
  {
    var out: seq<Byte> := [84, 81, 61, 61];
    GroupOfOne(77);
    SecondBits(77, 0);
    FirstBits(77);
    hide ToBits, BitsOfBytes, BitsOfSextets, Zeros, First, Second;
    assert GroupSextets([77]) == [19, 16];
    assert Values(out[..2]) == [19, 16];
  }

  /** With the padding given up for another character, only the loose behaviour accepts; a body with the
      special characters of both alphabets is refused even by detection. */
  lemma Refusals(decoder: Alphabet, behaviour: Behaviour)
    ensures Accepted([84, 81, 61, 81], decoder, behaviour) <==> behaviour == Loose
    ensures !Accepted([43, 45], decoder, behaviour) && !Accepted([47, 95], decoder, behaviour)
  {
    var tail: seq<Byte> := [84, 81, 61, 81];
    BodyIsPrefix(tail, 2);
    assert tail[2..][1] == 81;
    BodyIsPrefix([43, 45], 2);
    BodyIsPrefix([47, 95], 2);
    var plus, slash: seq<Byte> := [43, 45], [47, 95];
    assert plus[..2] == plus && slash[..2] == slash;
    assert !InAlphabet(true, plus[0]) && !InAlphabet(false, plus[1]);
    assert !InAlphabet(true, slash[0]) && !InAlphabet(false, slash[1]);
    hide Body;
  }

  lemma OriginalDecodes(input: seq<Byte>, chars: seq<Byte>)
    requires |chars| == SextetCount(|input|)
    requires BitsOfSextets(Values(chars)) == BitsOfBytes(input) + Zeros(6 * |chars| - 8 * |input|)
    ensures IsDecoding(chars, input)
  {
  }
}
