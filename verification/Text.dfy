/** Byte strings: a Go string is a sequence of bytes, written here as characters below 256. */
module Text {

  // ---------------------------------------------------------------- white space

  predicate AsciiSpace(c: char) {
    c == ' ' || '\t' <= c <= '\r'
  }

  /** The UTF-8 encodings of the white space outside ASCII, of two and of three bytes. */
  predicate TwoByteSpace(c: char, d: char) {
    c as int == 0xC2 && (d as int == 0x85 || d as int == 0xA0)
  }

  predicate ThreeByteSpace(c: char, d: char, e: char) {
    || (c as int == 0xE1 && d as int == 0x9A && e as int == 0x80)
    || (c as int == 0xE2 && d as int == 0x80 &&
        (0x80 <= e as int <= 0x8A || e as int == 0xA8 || e as int == 0xA9 || e as int == 0xAF))
    || (c as int == 0xE2 && d as int == 0x81 && e as int == 0x9F)
    || (c as int == 0xE3 && d as int == 0x80 && e as int == 0x80)
  }

  /** Length of the white-space rune at the front of s, zero when there is none. */
  function FrontSpace(s: string): (n: nat)
    ensures n <= |s|
  {
    if |s| >= 1 && AsciiSpace(s[0]) then 1
    else if |s| >= 2 && TwoByteSpace(s[0], s[1]) then 2
    else if |s| >= 3 && ThreeByteSpace(s[0], s[1], s[2]) then 3
    else 0
  }

  function BackSpace(s: string): (n: nat)
    ensures n <= |s|
  {
    var e := |s|;
    if e >= 1 && AsciiSpace(s[e - 1]) then 1
    else if e >= 2 && TwoByteSpace(s[e - 2], s[e - 1]) then 2
    else if e >= 3 && ThreeByteSpace(s[e - 3], s[e - 2], s[e - 1]) then 3
    else 0
  }

  function TrimLeft(s: string): string
    decreases |s|
  {
    if FrontSpace(s) == 0 then s else TrimLeft(s[FrontSpace(s)..])
  }

  function TrimRight(s: string): string
    decreases |s|
  {
    if BackSpace(s) == 0 then s else TrimRight(s[..|s| - BackSpace(s)])
  }

  function TrimSpace(s: string): string {
    TrimRight(TrimLeft(s))
  }

  /** Printable ASCII other than the field separator. */
  predicate Graphic(c: char) {
    '!' <= c <= '~' && c != SEPARATOR
  }

  lemma GraphicIsTrimmed(s: string)
    requires forall c :: c in s ==> Graphic(c)
    ensures TrimSpace(s) == s
  {
    if s != [] {
      assert Graphic(s[0]) && Graphic(s[|s| - 1]);
    }
  }

  /** Trimming drops white space only. */
  lemma {:induction false} TrimLeftKeeps(s: string, c: char)
    requires '!' <= c <= '~'
    ensures c in TrimLeft(s) <==> c in s
    decreases |s|
  {
    var n := FrontSpace(s);
    if n > 0 {
      assert c !in s[..n];
      assert s == s[..n] + s[n..];
      TrimLeftKeeps(s[n..], c);
    }
  }

  lemma {:induction false} TrimRightKeeps(s: string, c: char)
    requires '!' <= c <= '~'
    ensures c in TrimRight(s) <==> c in s
    decreases |s|
  {
    var n := |s| - BackSpace(s);
    if n < |s| {
      assert c !in s[n..];
      assert s == s[..n] + s[n..];
      TrimRightKeeps(s[..n], c);
    }
  }

  lemma TrimKeeps(s: string, c: char)
    requires '!' <= c <= '~'
    ensures c in TrimSpace(s) <==> c in s
  {
    TrimLeftKeeps(s, c);
    TrimRightKeeps(TrimLeft(s), c);
  }

  /** Trimming twice is trimming once. */
  lemma TrimIsIdempotent(s: string)
    ensures TrimSpace(TrimSpace(s)) == TrimSpace(s)
  {
    TrimLeftDone(s);
    TrimRightStaysLeftTrimmed(TrimLeft(s));
    TrimRightDone(TrimLeft(s));
  }

  lemma {:induction false} TrimLeftDone(s: string)
    ensures FrontSpace(TrimLeft(s)) == 0
    decreases |s|
  {
    if FrontSpace(s) > 0 {
      TrimLeftDone(s[FrontSpace(s)..]);
    }
  }

  lemma {:induction false} TrimRightDone(s: string)
    ensures BackSpace(TrimRight(s)) == 0
    decreases |s|
  {
    if BackSpace(s) > 0 {
      TrimRightDone(s[..|s| - BackSpace(s)]);
    }
  }

  lemma {:induction false} TrimRightStaysLeftTrimmed(s: string)
    requires FrontSpace(s) == 0
    ensures FrontSpace(TrimRight(s)) == 0
    decreases |s|
  {
    if BackSpace(s) > 0 {
      TrimRightStaysLeftTrimmed(s[..|s| - BackSpace(s)]);
    }
  }

  // ---------------------------------------------------------------- splitting and joining

  const SEPARATOR := '|'

  predicate Plain(s: string) {
    SEPARATOR !in s
  }

  /** strings.Split on the separator. */
  function Split(s: string): (parts: seq<string>)
    ensures |parts| >= 1
  {
    if s == [] then [[]]
    else
      var rest := Split(s[1..]);
      if s[0] == SEPARATOR then [[]] + rest else [[s[0]] + rest[0]] + rest[1..]
  }

  function Join(parts: seq<string>): string
    requires parts != []
  {
    if |parts| == 1 then parts[0] else parts[0] + [SEPARATOR] + Join(parts[1..])
  }

  lemma {:induction false} SplitAfterField(field: string, rest: string)
    requires Plain(field)
    ensures Split(field + [SEPARATOR] + rest) == [field] + Split(rest)
  {
    var s := field + [SEPARATOR] + rest;
    if field == [] {
      assert s[1..] == rest;
    } else {
      assert s[1..] == field[1..] + [SEPARATOR] + rest;
      SplitAfterField(field[1..], rest);
      assert [field[0]] + field[1..] == field;
    }
  }

  lemma {:induction false} SplitPlain(s: string)
    requires Plain(s)
    ensures Split(s) == [s]
  {
    if s != [] {
      SplitPlain(s[1..]);
      assert [s[0]] + s[1..] == s;
    }
  }

  /** Splitting undoes joining. */
  lemma {:induction false} SplitJoin(parts: seq<string>)
    requires parts != [] && forall p :: p in parts ==> Plain(p)
    ensures Split(Join(parts)) == parts
  {
    if |parts| == 1 {
      SplitPlain(parts[0]);
    } else {
      SplitJoin(parts[1..]);
      SplitAfterField(parts[0], Join(parts[1..]));
    }
  }

  /** Joining undoes splitting, and no part holds a separator. */
  lemma {:induction false} JoinSplit(s: string)
    ensures Join(Split(s)) == s
    ensures forall p :: p in Split(s) ==> Plain(p)
  {
    if s != [] {
      var rest := Split(s[1..]);
      JoinSplit(s[1..]);
      assert Plain(rest[0]);
      if s[0] == SEPARATOR {
        assert Split(s)[1..] == rest;
      } else {
        var parts := [[s[0]] + rest[0]] + rest[1..];
        if |parts| > 1 {
          assert parts[1..] == rest[1..];
        }
      }
      assert [s[0]] + s[1..] == s;
    }
  }

  /** Joined parts split into as many parts only when none of them holds a separator. */
  lemma JoinedCount(parts: seq<string>)
    requires parts != []
    ensures |Split(Join(parts))| >= |parts|
    ensures |Split(Join(parts))| == |parts| <==> forall p :: p in parts ==> Plain(p)
  {
    if |parts| == 1 {
      CountOfOne(parts[0]);
    } else {
      JoinedCount(parts[1..]);
      CountOfFirst(parts[0], Join(parts[1..]));
      assert parts == [parts[0]] + parts[1..];
    }
  }

  lemma {:induction false} CountOfOne(s: string)
    ensures |Split(s)| == 1 <==> Plain(s)
  {
    if s != [] {
      CountOfOne(s[1..]);
      assert s == [s[0]] + s[1..];
    }
  }

  lemma {:induction false} CountOfFirst(first: string, rest: string)
    ensures |Split(first + [SEPARATOR] + rest)| >= 1 + |Split(rest)|
    ensures |Split(first + [SEPARATOR] + rest)| == 1 + |Split(rest)| <==> Plain(first)
  {
    var s := first + [SEPARATOR] + rest;
    if first == [] {
      assert s[1..] == rest;
    } else {
      assert s[1..] == first[1..] + [SEPARATOR] + rest;
      CountOfFirst(first[1..], rest);
      assert first == [first[0]] + first[1..];
    }
  }

  /** strings.LastIndex of the separator, |s| when there is none. */
  function LastSeparator(s: string): (i: nat)
    ensures i <= |s|
    ensures i < |s| ==> s[i] == SEPARATOR && Plain(s[i + 1..])
    ensures i == |s| <==> Plain(s)
  {
    if s == [] then 0
    else
      var n := |s| - 1;
      assert s == s[..n] + [s[n]];
      if s[n] == SEPARATOR then n
      else
        var i := LastSeparator(s[..n]);
        if i == n then |s| else
          assert s[i + 1..] == s[..n][i + 1..] + [s[n]];
          i
  }

  lemma PlainAfter(s: string, i: nat, j: nat)
    requires i < j < |s| && Plain(s[i + 1..])
    ensures s[j] != SEPARATOR
  {
    assert s[j] == s[i + 1..][j - i - 1];
  }

  lemma LastSeparatorFound(body: string, tail: string)
    requires Plain(tail)
    ensures LastSeparator(body + [SEPARATOR] + tail) == |body|
  {
    var s := body + [SEPARATOR] + tail;
    var i: nat, n: nat := LastSeparator(s), |body|;
    assert s[n] == SEPARATOR && s[n + 1..] == tail;
    assert SEPARATOR in s;
    if i < n {
      PlainAfter(s, i, n);
    } else if i > n {
      PlainAfter(s, n, i);
    }
  }

  // ---------------------------------------------------------------- letter case and hexadecimal

  function UpperChar(c: char): char {
    if 'a' <= c <= 'z' then c - 32 as char else c
  }

  function Upper(s: string): (u: string)
    ensures |u| == |s|
    ensures forall i :: 0 <= i < |s| ==> u[i] == UpperChar(s[i])
  {
    seq(|s|, i requires 0 <= i < |s| => UpperChar(s[i]))
  }

  predicate IsHexDigit(c: char) {
    '0' <= c <= '9' || 'A' <= c <= 'F' || 'a' <= c <= 'f'
  }

  /** hex.DecodeString succeeds. */
  predicate HexDecodes(s: string) {
    |s| % 2 == 0 && forall c :: c in s ==> IsHexDigit(c)
  }

  lemma UpperIsPlain(s: string, u: string)
    requires Upper(s) == Upper(u) && Plain(s)
    ensures Plain(u)
  {
    forall i | 0 <= i < |u| ensures u[i] != SEPARATOR {
      assert Upper(s)[i] == UpperChar(s[i]) && Upper(u)[i] == UpperChar(u[i]);
      assert s[i] in s;
    }
  }

  // ---------------------------------------------------------------- decimal numbers

  function Digit(n: nat): char
    requires n < 10
  {
    '0' + n as char
  }

  function Decimal(n: nat): string {
    if n < 10 then [Digit(n)] else Decimal(n / 10) + [Digit(n % 10)]
  }

  /** strconv.Itoa, the %d verb. */
  function Itoa(n: int): string {
    if n < 0 then "-" + Decimal(-n) else Decimal(n)
  }

  function DecimalValue(s: string): int {
    if s == [] then 0 else 10 * DecimalValue(s[..|s| - 1]) + (s[|s| - 1] as int - '0' as int)
  }

  lemma {:induction false} DecimalReads(n: nat)
    ensures DecimalValue(Decimal(n)) == n
    ensures Decimal(n) != [] && forall c :: c in Decimal(n) ==> '0' <= c <= '9'
  {
    if n < 10 {
      assert DecimalValue([Digit(n)]) == 10 * DecimalValue([]) + n;
    } else {
      DecimalReads(n / 10);
      var s := Decimal(n);
      assert s[..|s| - 1] == Decimal(n / 10);
    }
  }

  function IntValue(s: string): int
    requires s != []
  {
    if s[0] == '-' then -DecimalValue(s[1..]) else DecimalValue(s)
  }

  lemma ItoaReads(n: int)
    ensures Itoa(n) != [] && IntValue(Itoa(n)) == n
    ensures Plain(Itoa(n))
  {
    DecimalReads(if n < 0 then -n else n);
    if n < 0 {
      assert Itoa(n)[1..] == Decimal(-n);
    } else {
      assert Itoa(n)[0] in Decimal(n);
    }
  }

  lemma ItoaIsInjective(m: int, n: int)
    requires Itoa(m) == Itoa(n)
    ensures m == n
  {
    ItoaReads(m);
    ItoaReads(n);
  }
}
