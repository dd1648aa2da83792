/** The base64 encoding of section 4 of RFC 4648, as used for message headers. */
module Base64 {
  import opened Common

  type Byte = x: int | 0 <= x < 256

  function Digit(n: int): char
    requires 0 <= n < 64
  {
    if n < 26 then (n + 65) as char
    else if n < 52 then (n - 26 + 97) as char
    else if n < 62 then (n - 52 + 48) as char
    else if n == 62 then '+'
    else '/'
  }

  function DigitValue(c: char): (v: Option<int>)
    ensures v.Some? ==> 0 <= v.value < 64 && Digit(v.value) == c
  {
    if 'A' <= c <= 'Z' then Some(c as int - 65)
    else if 'a' <= c <= 'z' then Some(c as int - 97 + 26)
    else if '0' <= c <= '9' then Some(c as int - 48 + 52)
    else if c == '+' then Some(62)
    else if c == '/' then Some(63)
    else None
  }

  // One to three bytes as four characters.
  function Group(b: seq<Byte>): string
    requires 1 <= |b| <= 3
  {
    var first := Digit(b[0] / 4);
    if |b| == 1 then [first, Digit(b[0] % 4 * 16), '=', '=']
    else if |b| == 2 then [first, Digit(b[0] % 4 * 16 + b[1] / 16), Digit(b[1] % 16 * 4), '=']
    else [first, Digit(b[0] % 4 * 16 + b[1] / 16), Digit(b[1] % 16 * 4 + b[2] / 64), Digit(b[2] % 64)]
  }

  function Encode(b: seq<Byte>): string {
    if |b| == 0 then "" else if |b| <= 3 then Group(b) else Group(b[..3]) + Encode(b[3..])
  }

  // Decoding of one group of four characters, the last of the text if it is padded.
  function DecodeGroup(s: string): Option<seq<Byte>>
    requires |s| == 4
  {
    var v0, v1 := DigitValue(s[0]), DigitValue(s[1]);
    if v0.None? || v1.None? then None
    else
      var first := v0.value * 4 + v1.value / 16;
      if s[2] == '=' && s[3] == '=' then Some([first])
      else
        var v2 := DigitValue(s[2]);
        if v2.None? then None
        else
          var second := v1.value % 16 * 16 + v2.value / 4;
          if s[3] == '=' then Some([first, second])
          else
            var v3 := DigitValue(s[3]);
            if v3.None? then None else Some([first, second, v2.value % 4 * 64 + v3.value])
  }

  function Decode(s: string): Option<seq<Byte>> {
    if s == "" then Some([])
    else if |s| < 4 then None
    else
      match DecodeGroup(s[..4])
      case None => None
      case Some(head) =>
        if |head| < 3 then (if |s| == 4 then Some(head) else None)
        else match Decode(s[4..]) case None => None case Some(tail) => Some(head + tail)
  }

  lemma {:induction false} DigitRoundTrip(n: int)
    ensures 0 <= n < 64 ==> DigitValue(Digit(n)) == Some(n) && Digit(n) != '='
  {
  }

  lemma {:induction false} SplitsAt16(high: int, low: int)
    ensures 0 <= low < 16 ==> (high * 16 + low) / 16 == high && (high * 16 + low) % 16 == low
  {
  }

  lemma {:induction false} SplitsAt4(high: int, low: int)
    ensures 0 <= low < 4 ==> (high * 4 + low) / 4 == high && (high * 4 + low) % 4 == low
  {
  }

  lemma {:induction false} OneByte(a: Byte)
    ensures DecodeGroup(Group([a])) == Some([a])
  {
    DigitRoundTrip(a / 4);
    LastDigits(a % 4, 0, 16);
  }

  lemma {:induction false} TwoBytes(a: Byte, b: Byte)
    ensures DecodeGroup(Group([a, b])) == Some([a, b])
  {
    DigitRoundTrip(a / 4);
    LastDigits(a % 4, b / 16, 16);
    LastDigits(b % 16, 0, 4);
  }

  lemma {:induction false} ThreeBytes(a: Byte, b: Byte, c: Byte)
    ensures DecodeGroup(Group([a, b, c])) == Some([a, b, c])
  {
    DigitRoundTrip(a / 4);
    LastDigits(a % 4, b / 16, 16);
    LastDigits(b % 16, c / 64, 4);
    DigitRoundTrip(c % 64);
  }

  lemma {:induction false} GroupRoundTrip(b: seq<Byte>)
    requires 1 <= |b| <= 3
    ensures DecodeGroup(Group(b)) == Some(b)
  {
    if |b| == 1 {
      OneByte(b[0]);
      assert b == [b[0]];
    } else if |b| == 2 {
      TwoBytes(b[0], b[1]);
      assert b == [b[0], b[1]];
    } else {
      ThreeBytes(b[0], b[1], b[2]);
      assert b == [b[0], b[1], b[2]];
    }
  }

  // A digit made of the low bits of one byte and the high bits of the next reads back as both.
  lemma {:induction false} LastDigits(high: int, low: int, n: int)
    requires n == 4 || n == 16
    requires 0 <= high && high * n < 64 && 0 <= low < n
    ensures 0 <= high * n + low < 64
    ensures DigitValue(Digit(high * n + low)) == Some(high * n + low) && Digit(high * n + low) != '='
    ensures (high * n + low) / n == high && (high * n + low) % n == low
  {
    if n == 4 { SplitsAt4(high, low); } else { SplitsAt16(high, low); }
    DigitRoundTrip(high * n + low);
  }

  lemma {:induction false} LastGroup(group: string, head: seq<Byte>)
    requires |group| == 4 && DecodeGroup(group) == Some(head)
    ensures Decode(group) == Some(head)
  {
    assert group[..4] == group && head + [] == head;
  }

  lemma {:induction false} MoreGroups(group: string, rest: string, head: seq<Byte>, tail: seq<Byte>)
    requires |group| == 4 && DecodeGroup(group) == Some(head) && |head| == 3 && Decode(rest) == Some(tail)
    ensures Decode(group + rest) == Some(head + tail)
  {
    assert (group + rest)[..4] == group && (group + rest)[4..] == rest;
  }

  // Decoding undoes encoding, for every byte string.
  lemma {:induction false} RoundTrip(b: seq<Byte>)
    ensures Decode(Encode(b)) == Some(b)
  {
    if 1 <= |b| <= 3 {
      GroupRoundTrip(b);
      LastGroup(Group(b), b);
    } else if |b| > 3 {
      GroupRoundTrip(b[..3]);
      RoundTrip(b[3..]);
      MoreGroups(Group(b[..3]), Encode(b[3..]), b[..3], b[3..]);
      assert b == b[..3] + b[3..];
    }
  }
}
