/** Option and Outcome: the model's stand-ins for .NET's null and for an
    exception that escapes a call. */
module Wrappers {

  datatype Option<+T> = None | Some(value: T) {
    /** The value, or a default when null. */
    function GetOr(default: T): T {
      match this
      case Some(v) => v
      case None => default
    }
  }

  /** Pass: the call returned normally. Fail: it threw `error`. */
  datatype Outcome<+E> = Pass | Fail(error: E)

  datatype Result<+T, +E> = Success(value: T) | Failure(error: E)
}

/** The .NET exceptions the modelled code throws or catches. */
module Exceptions {

  datatype Exception =
    | IOException                  // a file could not be opened for writing
    | ArgumentException            // an encoded datagram did not fit its buffer
    | ArgumentNullException
    | ArgumentOutOfRangeException
    | ObjectDisposedException
    | IndexOutOfRangeException
    | TransportFailure             // whatever the Bluetooth stack throws
    | DisposeFailure               // whatever a Dispose implementation throws
}

/** Text helpers shared by the model: Int32.ToString, String.Join,
    Char.IsWhiteSpace and UTF-8 byte counts. */
module Text {
  import opened Wrappers

  predicate IsDigit(c: char) {
    '0' <= c <= '9'
  }

  function DigitChar(d: nat): (c: char)
    requires d < 10
    ensures IsDigit(c)
  {
    ('0' as int + d) as char
  }

  /** The decimal rendering of a non-negative number, without leading zeros. */
  function NatToString(n: nat): (r: string)
    ensures |r| >= 1
    ensures forall i :: 0 <= i < |r| ==> IsDigit(r[i])
    ensures n > 0 ==> r[0] != '0'
  {
    if n < 10 then [DigitChar(n)] else NatToString(n / 10) + [DigitChar(n % 10)]
  }

  function DigitValue(c: char): nat
    requires IsDigit(c)
  {
    c as int - '0' as int
  }

  /** Reads a run of decimal digits back into a number. */
  function ParseNat(s: string): nat
    requires forall i :: 0 <= i < |s| ==> IsDigit(s[i])
  {
    if s == [] then 0 else ParseNat(s[..|s| - 1]) * 10 + DigitValue(s[|s| - 1])
  }

  /** NatToString is injective: the digits it writes read back as the number. */
  lemma {:induction false} ParseNatToString(n: nat)
    ensures ParseNat(NatToString(n)) == n
  {
    if n >= 10 {
      var a := NatToString(n / 10);
      assert (a + [DigitChar(n % 10)])[..|a|] == a;
      ParseNatToString(n / 10);
    }
  }

  /** Int32.ToString(): a minus sign for negative values, then the digits. */
  function IntToString(i: int): (r: string)
    ensures |r| >= 1
    ensures forall k :: 0 <= k < |r| ==> IsDigit(r[k]) || r[k] == '-'
  {
    if i < 0 then "-" + NatToString(-i) else NatToString(i)
  }

  /** No field written by Int32.ToString needs CSV quoting or escaping. */
  lemma IntToStringPlain(i: int)
    ensures ',' !in IntToString(i) && '\n' !in IntToString(i) && '"' !in IntToString(i)
  {
    var r := IntToString(i);
    forall k | 0 <= k < |r| ensures r[k] != ',' && r[k] != '\n' && r[k] != '"' {
    }
  }

  /** Each element of xs rendered with Int32.ToString. */
  function IntStrings(xs: seq<int>): (r: seq<string>)
    ensures |r| == |xs|
    ensures forall i :: 0 <= i < |xs| ==> r[i] == IntToString(xs[i])
  {
    if xs == [] then [] else [IntToString(xs[0])] + IntStrings(xs[1..])
  }

  /** String.Join(sep, xs). */
  function Join(xs: seq<string>, sep: string): string
  {
    if |xs| == 0 then ""
    else if |xs| == 1 then xs[0]
    else xs[0] + sep + Join(xs[1..], sep)
  }

  /** Each line followed by a CRLF terminator (File.AppendAllLines on Windows). */
  function Lines(xs: seq<string>): string
  {
    if xs == [] then "" else xs[0] + "\r\n" + Lines(xs[1..])
  }

  /** Joining with CRLF and adding one trailing CRLF terminates every line. */
  lemma {:induction false} JoinCrlfIsLines(xs: seq<string>)
    requires |xs| >= 1
    ensures Join(xs, "\r\n") + "\r\n" == Lines(xs)
  {
    if |xs| > 1 {
      JoinCrlfIsLines(xs[1..]);
      assert Join(xs, "\r\n") + "\r\n" == xs[0] + "\r\n" + (Join(xs[1..], "\r\n") + "\r\n");
    }
  }

  function Count(s: string, c: char): nat
  {
    if s == [] then 0 else (if s[0] == c then 1 else 0) + Count(s[1..], c)
  }

  lemma {:induction false} CountConcat(a: string, b: string, c: char)
    ensures Count(a + b, c) == Count(a, c) + Count(b, c)
  {
    if a != [] {
      assert (a + b)[0] == a[0] && (a + b)[1..] == a[1..] + b;
      CountConcat(a[1..], b, c);
    } else {
      assert a + b == b;
    }
  }

  lemma {:induction false} CountAbsent(s: string, c: char)
    requires c !in s
    ensures Count(s, c) == 0
  {
    if s != [] {
      CountAbsent(s[1..], c);
    }
  }

  /** Joining n >= 1 numbers with "," puts exactly n - 1 commas in the text. */
  lemma {:induction false} JoinIntsCommas(xs: seq<int>)
    requires |xs| >= 1
    ensures Count(Join(IntStrings(xs), ","), ',') == |xs| - 1
  {
    var ss := IntStrings(xs);
    IntToStringPlain(xs[0]);
    CountAbsent(ss[0], ',');
    if |xs| > 1 {
      assert IntStrings(xs[1..]) == ss[1..];
      JoinIntsCommas(xs[1..]);
      CountConcat(ss[0] + ",", Join(ss[1..], ","), ',');
      CountConcat(ss[0], ",", ',');
      assert Join(ss, ",") == ss[0] + "," + Join(ss[1..], ",");
    }
  }

  /** Joined numbers contain only digits, '-' and the separator ','. */
  lemma {:induction false} JoinIntsChars(xs: seq<int>)
    ensures forall k :: 0 <= k < |Join(IntStrings(xs), ",")| ==>
      var c := Join(IntStrings(xs), ",")[k]; IsDigit(c) || c == '-' || c == ','
  {
    var ss := IntStrings(xs);
    if |xs| > 1 {
      assert IntStrings(xs[1..]) == ss[1..];
      JoinIntsChars(xs[1..]);
      assert Join(ss, ",") == ss[0] + "," + Join(ss[1..], ",");
    }
  }

  /** Char.IsWhiteSpace: the Unicode separator categories plus U+0009-U+000D and U+0085. */
  predicate IsWhiteSpace(c: char) {
    var u := c as int;
    (0x09 <= u <= 0x0D) || u == 0x20 || u == 0x85 || u == 0xA0 || u == 0x1680
    || (0x2000 <= u <= 0x200A) || u == 0x2028 || u == 0x2029 || u == 0x202F
    || u == 0x205F || u == 0x3000
  }

  /** String.IsNullOrWhiteSpace. */
  predicate IsNullOrWhiteSpace(s: Option<string>) {
    s.None? || forall i :: 0 <= i < |s.value| ==> IsWhiteSpace(s.value[i])
  }

  /** The number of bytes UTF-8 needs for one Unicode scalar value. */
  function Utf8Width(c: char): nat {
    if c as int < 0x80 then 1 else if c as int < 0x800 then 2 else if c as int < 0x10000 then 3 else 4
  }

  /** Encoding.UTF8.GetByteCount. */
  function Utf8Count(s: string): nat {
    if s == [] then 0 else Utf8Width(s[0]) + Utf8Count(s[1..])
  }

  lemma {:induction false} Utf8CountConcat(a: string, b: string)
    ensures Utf8Count(a + b) == Utf8Count(a) + Utf8Count(b)
  {
    if a != [] {
      assert (a + b)[0] == a[0] && (a + b)[1..] == a[1..] + b;
      Utf8CountConcat(a[1..], b);
    } else {
      assert a + b == b;
    }
  }

  /** Every character takes one to four bytes. */
  lemma {:induction false} Utf8CountBounds(s: string)
    ensures |s| <= Utf8Count(s) <= 4 * |s|
  {
    if s != [] {
      Utf8CountBounds(s[1..]);
    }
  }
}
