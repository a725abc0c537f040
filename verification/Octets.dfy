/** Bytes, and the unpadded URL-safe base64 of section 5 of RFC 4648 as Go's
    base64.RawURLEncoding writes and reads it. */
module Octets {
  import opened Options

  type Byte = b: nat | b < 256
  type Bytes = seq<Byte>
  type Sextet = v: nat | v < 64

  function Symbol(v: Sextet): (c: char)
    ensures c != '.' && c != '\r' && c != '\n'
  {
    if v < 26 then (65 + v) as char        // A-Z
    else if v < 52 then (71 + v) as char   // a-z
    else if v == 62 then '-'
    else if v == 63 then '_'
    else (v - 4) as char                   // 0-9
  }

  function Value(c: char): Option<Sextet> {
    var i := c as int;
    if 65 <= i < 91 then Some(i - 65)
    else if 97 <= i < 123 then Some(i - 71)
    else if 48 <= i < 58 then Some(i + 4)
    else if c == '-' then Some(62)
    else if c == '_' then Some(63)
    else None
  }

  lemma SymbolHasValue(v: Sextet)
    ensures Value(Symbol(v)) == Some(v)
  {}

  function Encode(b: Bytes): string {
    if |b| == 0 then ""
    else if |b| == 1 then [Symbol(b[0] / 4), Symbol(b[0] % 4 * 16)]
    else if |b| == 2 then [Symbol(b[0] / 4), Symbol(b[0] % 4 * 16 + b[1] / 16), Symbol(b[1] % 16 * 4)]
    else
      [Symbol(b[0] / 4), Symbol(b[0] % 4 * 16 + b[1] / 16), Symbol(b[1] % 16 * 4 + b[2] / 64), Symbol(b[2] % 64)]
      + Encode(b[3..])
  }

  /** The decoder skips carriage returns and line feeds wherever they stand. */
  function Unbroken(s: string): string {
    if s == "" then "" else
      (if s[0] == '\r' || s[0] == '\n' then "" else [s[0]]) + Unbroken(s[1..])
  }

  /** Reads four symbols at a time; it does not insist that unused low bits be zero. */
  function Quads(s: string): Option<Bytes> {
    if |s| == 0 then Some([])
    else if |s| == 1 then None
    else
      match (Value(s[0]), Value(s[1]))
      case (Some(a), Some(b)) =>
        if |s| == 2 then Some([a * 4 + b / 16]) else
          (match Value(s[2])
           case None => None
           case Some(c) =>
             if |s| == 3 then Some([a * 4 + b / 16, b % 16 * 16 + c / 4]) else
               match (Value(s[3]), Quads(s[4..]))
               case (Some(d), Some(rest)) => Some([a * 4 + b / 16, b % 16 * 16 + c / 4, c % 4 * 64 + d] + rest)
               case _ => None)
      case _ => None
  }

  function Decode(s: string): Option<Bytes> {
    Quads(Unbroken(s))
  }

  lemma {:induction false} UnbrokenAlready(s: string)
    requires '\r' !in s && '\n' !in s
    ensures Unbroken(s) == s
  {
    if s != "" {
      UnbrokenAlready(s[1..]);
    }
  }

  lemma {:induction false} BreakAtEnd(s: string)
    ensures Unbroken(s + "\n") == Unbroken(s)
  {
    if s == "" {
      assert "" + "\n" == "\n" && "\n"[1..] == "";
    } else {
      assert (s + "\n")[1..] == s[1..] + "\n";
      BreakAtEnd(s[1..]);
    }
  }

  lemma {:induction false} OnlySymbols(b: Bytes, c: char)
    requires c == '.' || c == '\r' || c == '\n'
    ensures c !in Encode(b)
  {
    if |b| > 2 {
      OnlySymbols(b[3..], c);
    }
  }

  lemma Repack(x: Byte, y: Byte, z: Byte)
    ensures x / 4 * 4 + (x % 4 * 16 + y / 16) / 16 == x
    ensures (x % 4 * 16 + y / 16) % 16 * 16 + (y % 16 * 4 + z / 64) / 4 == y
    ensures (y % 16 * 4 + z / 64) % 4 * 64 + z % 64 == z
  {}

  lemma EncodeStep(bytes: Bytes)
    requires |bytes| >= 3
    ensures var s := Encode(bytes);
            && |s| >= 4 && s[4..] == Encode(bytes[3..])
            && s[0] == Symbol(bytes[0] / 4) && s[1] == Symbol(bytes[0] % 4 * 16 + bytes[1] / 16)
            && s[2] == Symbol(bytes[1] % 16 * 4 + bytes[2] / 64) && s[3] == Symbol(bytes[2] % 64)
  {}

  lemma QuadsStep(s: string, a: Sextet, b: Sextet, c: Sextet, d: Sextet, x: Byte, y: Byte, z: Byte, rest: Bytes)
    requires |s| >= 4 && Value(s[0]) == Some(a) && Value(s[1]) == Some(b) && Value(s[2]) == Some(c)
        && Value(s[3]) == Some(d)
    requires x == a * 4 + b / 16 && y == b % 16 * 16 + c / 4 && z == c % 4 * 64 + d
    requires Quads(s[4..]) == Some(rest)
    ensures Quads(s) == Some([x, y, z] + rest)
  {}

  lemma QuadsOfThree(s: string, a: Sextet, b: Sextet, c: Sextet, x: Byte, y: Byte)
    requires |s| == 3 && Value(s[0]) == Some(a) && Value(s[1]) == Some(b) && Value(s[2]) == Some(c)
    requires x == a * 4 + b / 16 && y == b % 16 * 16 + c / 4
    ensures Quads(s) == Some([x, y])
  {}

  lemma Shape(bytes: Bytes)
    ensures |bytes| == 1 ==> bytes == [bytes[0]]
    ensures |bytes| == 2 ==> bytes == [bytes[0], bytes[1]]
    ensures |bytes| >= 3 ==> bytes == [bytes[0], bytes[1], bytes[2]] + bytes[3..]
  {}

  lemma OneByte(bytes: Bytes)
    requires |bytes| == 1
    ensures Quads(Encode(bytes)) == Some(bytes)
  {
    var x := bytes[0];
    SymbolHasValue(x / 4);
    SymbolHasValue(x % 4 * 16);
    Shape(bytes);
  }

  lemma TwoBytes(bytes: Bytes)
    requires |bytes| == 2
    ensures Quads(Encode(bytes)) == Some(bytes)
  {
    var x, y := bytes[0], bytes[1];
    var a, b, c := x / 4, x % 4 * 16 + y / 16, y % 16 * 4;
    SymbolHasValue(a);
    SymbolHasValue(b);
    SymbolHasValue(c);
    Repack(x, y, 0);
    QuadsOfThree(Encode(bytes), a, b, c, x, y);
    Shape(bytes);
  }

  lemma ManyBytes(bytes: Bytes)
    requires |bytes| >= 3 && Quads(Encode(bytes[3..])) == Some(bytes[3..])
    ensures Quads(Encode(bytes)) == Some(bytes)
  {
    var x, y, z, rest := bytes[0], bytes[1], bytes[2], bytes[3..];
    var a, b, c, d := x / 4, x % 4 * 16 + y / 16, y % 16 * 4 + z / 64, z % 64;
    SymbolHasValue(a);
    SymbolHasValue(b);
    SymbolHasValue(c);
    SymbolHasValue(d);
    Repack(x, y, z);
    EncodeStep(bytes);
    QuadsStep(Encode(bytes), a, b, c, d, x, y, z, rest);
    Shape(bytes);
  }

  lemma {:induction false} QuadsRoundTrip(bytes: Bytes)
    ensures Quads(Encode(bytes)) == Some(bytes)
  {
    if |bytes| == 1 {
      OneByte(bytes);
    } else if |bytes| == 2 {
      TwoBytes(bytes);
    } else if |bytes| >= 3 {
      QuadsRoundTrip(bytes[3..]);
      ManyBytes(bytes);
    }
  }

  /** Decoding inverts encoding, for all bytes. */
  lemma {:induction false} RoundTrip(b: Bytes)
    ensures Decode(Encode(b)) == Some(b)
  {
    OnlySymbols(b, '\r');
    OnlySymbols(b, '\n');
    UnbrokenAlready(Encode(b));
    QuadsRoundTrip(b);
  }
}
