/**
 * The command-line handling of the server's entry point: with no arguments
 * the server listens on 127.0.0.1:8000; with an address and a port it listens
 * there, after `std::stoi` has parsed the port and the port has passed an
 * upper-bound check; anything else is a usage error. Every failure ends the
 * process with a message on standard error, modelled as a `Fail` outcome.
 */
module Cli {
  import opened StdText

  const INT_MIN: int := -0x8000_0000
  const INT_MAX: int := 0x7FFF_FFFF

  const DEFAULT_ADDRESS: string := "127.0.0.1"
  const DEFAULT_PORT: int := 8000
  const MAX_PORT: int := 65535

  predicate IsDigit(c: char) {
    '0' <= c <= '9'
  }

  predicate AllDigits(s: string) {
    forall k :: 0 <= k < |s| ==> IsDigit(s[k])
  }

  /** The end of the run of decimal digits that starts at `i`. */
  function DigitsEnd(s: string, i: nat): (j: nat)
    requires i <= |s|
    ensures i <= j <= |s|
    ensures forall k :: i <= k < j ==> IsDigit(s[k])
    ensures j == |s| || !IsDigit(s[j])
    decreases |s| - i
  {
    if i == |s| || !IsDigit(s[i]) then i else DigitsEnd(s, i + 1)
  }

  /** The number a run of decimal digits denotes, most significant first. */
  function DecimalValue(ds: string): nat
    requires AllDigits(ds)
  {
    if ds == [] then 0
    else DecimalValue(ds[..|ds| - 1]) * 10 + (ds[|ds| - 1] as int - '0' as int)
  }

  /** The outcome of `std::stoi`: a value, or one of the two exceptions it throws. */
  datatype StoiResult = Parsed(value: int) | InvalidArgument | OutOfRange

  /**
   * `std::stoi(s)` in base 10: leading whitespace is skipped, one optional
   * sign is read, then the longest run of digits; whatever follows is
   * ignored. No digit is `invalid_argument`; a value outside `int` (32 bits)
   * is `out_of_range`.
   */
  function Stoi(s: string): StoiResult {
    var b := SkipSpace(s, 0);
    var negative := b < |s| && s[b] == '-';
    var d := if b < |s| && (s[b] == '+' || s[b] == '-') then b + 1 else b;
    var e := DigitsEnd(s, d);
    if e == d then InvalidArgument
    else
      assert AllDigits(s[d..e]) by {
        forall k | 0 <= k < e - d ensures IsDigit(s[d..e][k]) {
          assert s[d..e][k] == s[d + k];
        }
      }
      var magnitude: int := DecimalValue(s[d..e]);
      var value: int := if negative then -magnitude else magnitude;
      if value < INT_MIN || value > INT_MAX then OutOfRange else Parsed(value)
  }

  /** What the entry point does: listen on an address and port, or fail with a message on standard error. */
  datatype Outcome = Listen(address: string, port: int) | Fail(message: string)

  /** The usage line; `argv[0]` is the program name (an empty argument list is given an empty one). */
  function Usage(argv: seq<string>): string {
    "Usage: " + (if |argv| > 0 then argv[0] else "") + " [ip_address port]"
  }

  /** The entry point's decision for the argument vector `argv` (so `argc` is `|argv|`). */
  function CommandLine(argv: seq<string>): Outcome {
    if |argv| == 3 then
      match Stoi(argv[2])
      case InvalidArgument => Fail("Invalid port number: " + argv[2])
      case OutOfRange => Fail("Port number out of range for type int. : " + argv[2])
      case Parsed(port) =>
        if port > MAX_PORT then Fail("Port number must be less than 65,535")
        else Listen(argv[1], port)
    else if |argv| != 1 then Fail(Usage(argv))
    else Listen(DEFAULT_ADDRESS, DEFAULT_PORT)
  }

  /**
   * The argument handling of `main`: starts from the default address and
   * port and overwrites them from the arguments when there are two.
   */
  method ParseCommandLine(argv: seq<string>) returns (outcome: Outcome)
    ensures outcome == CommandLine(argv)
  {
    var ipAddress := DEFAULT_ADDRESS;
    var port := DEFAULT_PORT;
    if |argv| == 3 {
      ipAddress := argv[1];
      var parsed := Stoi(argv[2]);
      if parsed == InvalidArgument {
        return Fail("Invalid port number: " + argv[2]);
      } else if parsed == OutOfRange {
        return Fail("Port number out of range for type int. : " + argv[2]);
      }
      port := parsed.value;
      if port > MAX_PORT {
        return Fail("Port number must be less than 65,535");
      }
    } else if |argv| != 1 {
      return Fail(Usage(argv));
    }
    outcome := Listen(ipAddress, port);
  }

  // ----- properties -----

  /** The digit character of `d`. */
  function DigitChar(d: nat): char
    requires d < 10
  {
    ('0' as int + d) as char
  }

  /** The decimal numeral of `n`, without leading zeros. */
  function Decimal(n: nat): (r: string)
    ensures |r| >= 1 && AllDigits(r)
  {
    if n < 10 then [DigitChar(n)] else Decimal(n / 10) + [DigitChar(n % 10)]
  }

  /** `std::to_string` of an `int`: a minus sign for negative values, then the decimal numeral. */
  function IntToString(n: int): string {
    if n < 0 then "-" + Decimal(-n) else Decimal(n)
  }

  /** Reading back a numeral gives its number. */
  lemma {:induction false} DecimalValueOf(n: nat)
    ensures DecimalValue(Decimal(n)) == n
  {
    if n >= 10 {
      DecimalValueOf(n / 10);
      var r := Decimal(n);
      assert r[..|r| - 1] == Decimal(n / 10);
    }
  }

  /**
   * `std::stoi` reads back every `int` written by `std::to_string` (the two
   * are inverse on the whole `int` range), and refuses every numeral of a
   * larger magnitude with `out_of_range`.
   */
  lemma StoiOfNumeral(n: int)
    ensures Stoi(IntToString(n)) == if INT_MIN <= n <= INT_MAX then Parsed(n) else OutOfRange
  {
    var s := IntToString(n);
    var m := if n < 0 then -n else n;
    var d := if n < 0 then 1 else 0;
    assert s[d..] == Decimal(m);
    assert !IsSpace(s[0]) by {
      assert IsDigit(Decimal(m)[0]);
    }
    SkipSpaceOf(s, 0, 0);
    assert DigitsEnd(s, d) == |s| by {
      DigitsEndOf(s, d);
    }
    assert s[d..|s|] == Decimal(m);
    DecimalValueOf(m);
  }

  /** Without a single digit, `std::stoi` throws `invalid_argument`. */
  lemma StoiWithoutDigits(s: string)
    requires forall k :: 0 <= k < |s| ==> !IsDigit(s[k])
    ensures Stoi(s) == InvalidArgument
  {
  }

  /** The signed number that an optional sign and a run of digits denote. */
  function SignedValue(sign: string, digits: string): int
    requires AllDigits(digits)
  {
    if sign == "-" then -(DecimalValue(digits) as int) else DecimalValue(digits)
  }

  /**
   * `std::stoi` on leading whitespace, an optional sign and a non-empty run of
   * digits, followed by anything that does not start with a digit: the value
   * of the digits with that sign, or `out_of_range` beyond `int`.
   */
  lemma StoiOfDigitRun(ws: string, sign: string, digits: string, rest: string)
    requires AllSpace(ws) && (sign == "" || sign == "+" || sign == "-")
    requires |digits| > 0 && AllDigits(digits)
    requires rest == [] || !IsDigit(rest[0])
    ensures Stoi(ws + sign + digits + rest) ==
      var v := SignedValue(sign, digits);
      if v < INT_MIN || v > INT_MAX then OutOfRange else Parsed(v)
  {
    var t := ws + sign + digits + rest;
    var b, d := |ws|, |ws| + |sign|;
    var e := d + |digits|;
    assert forall k :: 0 <= k < b ==> t[k] == ws[k];
    assert t[b] == (if sign == "" then digits[0] else sign[0]);
    SkipSpaceOf(t, 0, b);
    assert forall k :: d <= k < e ==> t[k] == digits[k - d];
    assert e == |t| || t[e] == rest[0];
    DigitsEndAt(t, d, e);
    assert t[d..e] == digits;
  }

  /**
   * What follows the digits is ignored: whatever the leading whitespace,
   * sign and digits (leading zeros included), appending text that does not
   * start with a digit does not change what `std::stoi` reads.
   */
  lemma StoiIgnoresRest(ws: string, sign: string, digits: string, rest: string)
    requires AllSpace(ws) && (sign == "" || sign == "+" || sign == "-")
    requires |digits| > 0 && AllDigits(digits)
    requires rest == [] || !IsDigit(rest[0])
    ensures Stoi(ws + sign + digits + rest) == Stoi(ws + sign + digits)
  {
    StoiOfDigitRun(ws, sign, digits, rest);
    StoiOfDigitRun(ws, sign, digits, []);
    assert ws + sign + digits + [] == ws + sign + digits;
  }

  /** The digit run from `i` ends at `e` when `s[i..e]` are digits and `s[e]` is not. */
  lemma {:induction false} DigitsEndAt(s: string, i: nat, e: nat)
    requires i <= e <= |s| && (forall k :: i <= k < e ==> IsDigit(s[k])) && (e == |s| || !IsDigit(s[e]))
    ensures DigitsEnd(s, i) == e
    decreases e - i
  {
    if i < e {
      DigitsEndAt(s, i + 1, e);
    }
  }

  /** A string made of digits from `i` on is read to its end. */
  lemma {:induction false} DigitsEndOf(s: string, i: nat)
    requires i <= |s| && forall k :: i <= k < |s| ==> IsDigit(s[k])
    ensures DigitsEnd(s, i) == |s|
    decreases |s| - i
  {
    if i < |s| {
      DigitsEndOf(s, i + 1);
    }
  }

  /**
   * The argument count decides: one argument (the program name) listens on
   * 127.0.0.1:8000; three take the address verbatim and the port from
   * `std::stoi`, failing on either exception or a port above 65535; any
   * other count is a usage error.
   */
  lemma CommandLineCases(argv: seq<string>)
    ensures |argv| == 1 ==> CommandLine(argv) == Listen("127.0.0.1", 8000)
    ensures |argv| != 1 && |argv| != 3 ==> CommandLine(argv) == Fail(Usage(argv))
    ensures |argv| == 3 ==>
      (CommandLine(argv).Listen? <==> Stoi(argv[2]).Parsed? && Stoi(argv[2]).value <= 65535)
    ensures |argv| == 3 && CommandLine(argv).Listen? ==>
      CommandLine(argv) == Listen(argv[1], Stoi(argv[2]).value)
  {
  }

  /**
   * The port check has an upper bound only: every `int` up to 65535 is
   * accepted as a port, including 0 and every negative value, and every
   * `int` above it is refused; a numeral beyond `int` is refused as out of
   * range before the check.
   */
  lemma PortRange(program: string, address: string, port: int)
    ensures CommandLine([program, address, IntToString(port)]) ==
      if port < INT_MIN || port > INT_MAX then Fail("Port number out of range for type int. : " + IntToString(port))
      else if port <= 65535 then Listen(address, port)
      else Fail("Port number must be less than 65,535")
  {
    StoiOfNumeral(port);
  }

  /**
   * `std::stoi` throws `invalid_argument` when no digit follows the leading
   * whitespace and the optional sign; with `StoiOfDigitRun` this covers every
   * string.
   */
  lemma StoiNonNumericPrefix(ws: string, sign: string, rest: string)
    requires AllSpace(ws) && (sign == "" || sign == "+" || sign == "-")
    requires rest == [] || !IsDigit(rest[0])
    requires sign == "" ==> rest == [] || (!IsSpace(rest[0]) && rest[0] != '+' && rest[0] != '-')
    ensures Stoi(ws + sign + rest) == InvalidArgument
  {
    var t := ws + sign + rest;
    var b, d := |ws|, |ws| + |sign|;
    assert forall k :: 0 <= k < b ==> t[k] == ws[k];
    if sign != "" {
      assert t[b] == sign[0];
      SkipSpaceOf(t, 0, b);
    } else if rest == [] {
      SkipSpaceOf(t, 0, b);
    } else {
      assert t[b] == rest[0];
      SkipSpaceOf(t, 0, b);
    }
    assert d == |t| || t[d] == rest[0];
    DigitsEndAt(t, d, d);
  }

  /**
   * A port argument that holds no digit after its leading whitespace and
   * optional sign is refused as an invalid port number.
   */
  lemma NonNumericPort(program: string, address: string, ws: string, sign: string, rest: string)
    requires AllSpace(ws) && (sign == "" || sign == "+" || sign == "-")
    requires rest == [] || !IsDigit(rest[0])
    requires sign == "" ==> rest == [] || (!IsSpace(rest[0]) && rest[0] != '+' && rest[0] != '-')
    ensures CommandLine([program, address, ws + sign + rest]) == Fail("Invalid port number: " + (ws + sign + rest))
  {
    StoiNonNumericPrefix(ws, sign, rest);
  }
}
