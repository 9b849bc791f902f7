/** The identifier the batch trade query builds for each row: the transaction hash in lower case
    followed by the log index as sixteen hexadecimal digits. */
module TradeId {
  const TWO_TO_THE_64 := 0x1_0000_0000_0000_0000
  const TWO_TO_THE_63 := 0x8000_0000_0000_0000

  /** `replace(s, '0x', '')`. */
  function Stripped(s: string): string {
    if s == "" then ""
    else if |s| >= 2 && s[0] == '0' && s[1] == 'x' then Stripped(s[2..])
    else [s[0]] + Stripped(s[1..])
  }

  function LowerChar(c: char): char {
    if 'A' <= c <= 'Z' then (c as int + 32) as char else c
  }

  /** `lower(s)`. */
  function Lower(s: string): (t: string)
    ensures |t| == |s|
  {
    if s == "" then "" else [LowerChar(s[0])] + Lower(s[1..])
  }

  function Digit(d: nat): char
    requires d < 16
  {
    if d < 10 then ('0' as int + d) as char else ('a' as int + d - 10) as char
  }

  function DigitValue(c: char): int {
    if '0' <= c <= '9' then c as int - '0' as int else c as int - 'a' as int + 10
  }

  function Hex(n: nat): string {
    if n < 16 then [Digit(n)] else Hex(n / 16) + [Digit(n % 16)]
  }

  function Padded(s: string, width: nat): (t: string)
    ensures |t| == if |s| < width then width else |s|
    decreases width - |s|
  {
    if |s| >= width then s else Padded("0" + s, width)
  }

  /** `printf('%016x', log)`, which reads the 64-bit integer as unsigned. */
  function LogText(log: int): string {
    Padded(Hex(log % TWO_TO_THE_64), 16)
  }

  function Identifier(tx: string, log: int): string {
    "0x" + Lower(Stripped(tx)) + LogText(log)
  }

  // ---------------------------------------------------------------- reading an identifier back

  function Value(s: string): int {
    if s == "" then 0 else 16 * Value(s[..|s| - 1]) + DigitValue(s[|s| - 1])
  }

  function Signed(n: int): int {
    if n < TWO_TO_THE_63 then n else n - TWO_TO_THE_64
  }

  function TxOf(id: string): string
    requires |id| >= 16
  {
    id[..|id| - 16]
  }

  function LogOf(id: string): int
    requires |id| >= 16
  {
    Signed(Value(id[|id| - 16..]))
  }

  predicate IsHexDigit(c: char) {
    '0' <= c <= '9' || 'a' <= c <= 'f' || 'A' <= c <= 'F'
  }

  /** A transaction hash as it is stored: `0x` and 64 hexadecimal digits of either case. */
  predicate IsTxHash(tx: string) {
    |tx| == 66 && tx[..2] == "0x" && forall i :: 2 <= i < 66 ==> IsHexDigit(tx[i])
  }

  predicate IsInt64(log: int) {
    -TWO_TO_THE_63 <= log < TWO_TO_THE_63
  }

  lemma {:induction false} HexReadsBack(n: nat)
    ensures Value(Hex(n)) == n
  {
    if n < 16 {
      assert Hex(n)[..0] == "";
    } else {
      HexReadsBack(n / 16);
      assert Hex(n)[..|Hex(n)| - 1] == Hex(n / 16);
    }
  }

  lemma {:induction false} LeadingZero(s: string)
    ensures Value("0" + s) == Value(s)
  {
    if s == "" {
      assert ("0" + s)[..0] == "";
    } else {
      LeadingZero(s[..|s| - 1]);
      assert ("0" + s)[..|s|] == "0" + s[..|s| - 1];
    }
  }

  lemma {:induction false} PaddingKeepsValue(s: string, width: nat)
    ensures Value(Padded(s, width)) == Value(s)
    decreases width - |s|
  {
    if |s| < width {
      PaddingKeepsValue("0" + s, width);
      LeadingZero(s);
    }
  }

  function Pow16(k: nat): nat {
    if k == 0 then 1 else 16 * Pow16(k - 1)
  }

  lemma {:induction false} HexIsShort(n: nat, k: nat)
    requires k > 0 && n < Pow16(k)
    ensures |Hex(n)| <= k
  {
    if n >= 16 {
      assert Pow16(k - 1) > n / 16;
      assert k > 1;
      HexIsShort(n / 16, k - 1);
    }
  }

  lemma SixteenDigits()
    ensures Pow16(16) == TWO_TO_THE_64
  {
    assert Pow16(8) == 0x1_0000_0000;
  }

  lemma LogReadsBack(log: int)
    requires IsInt64(log)
    ensures |LogText(log)| == 16 && Signed(Value(LogText(log))) == log
  {
    hide Hex, Value, Pow16, Padded;
    var n := log % TWO_TO_THE_64;
    SixteenDigits();
    HexIsShort(n, 16);
    HexReadsBack(n);
    PaddingKeepsValue(Hex(n), 16);
  }

  lemma {:induction false} NothingToStrip(s: string)
    requires 'x' !in s
    ensures Stripped(s) == s
  {
    if s != "" {
      NothingToStrip(s[1..]);
    }
  }

  lemma StripsPrefix(tx: string)
    requires IsTxHash(tx)
    ensures "0x" + Lower(Stripped(tx)) == Lower(tx)
  {
    NothingToStrip(tx[2..]);
    assert Stripped(tx) == Stripped(tx[2..]);
    assert tx[1..][1..] == tx[2..] && tx[0] == tx[..2][0] && tx[1] == tx[..2][1];
    assert Lower(tx) == ['0'] + Lower(tx[1..]) && Lower(tx[1..]) == ['x'] + Lower(tx[2..]);
  }

  /** The hash (up to case) and the log index can be read back from the identifier. */
  lemma IdReadsBack(tx: string, log: int)
    requires IsTxHash(tx) && IsInt64(log)
    ensures |Identifier(tx, log)| == 82
    ensures TxOf(Identifier(tx, log)) == Lower(tx) && LogOf(Identifier(tx, log)) == log
  {
    LogReadsBack(log);
    StripsPrefix(tx);
    assert Identifier(tx, log) == Lower(tx) + LogText(log);
  }

  /** So two rows share an identifier exactly if they are the same log of the same transaction. */
  lemma IdIsInjective(tx: string, log: int, otherTx: string, otherLog: int)
    requires IsTxHash(tx) && IsInt64(log) && IsTxHash(otherTx) && IsInt64(otherLog)
    ensures Identifier(tx, log) == Identifier(otherTx, otherLog) <==> Lower(tx) == Lower(otherTx) && log == otherLog
  {
    IdReadsBack(tx, log);
    IdReadsBack(otherTx, otherLog);
    StripsPrefix(tx);
    StripsPrefix(otherTx);
  }

  predicate IsLowerHexDigit(c: char) {
    '0' <= c <= '9' || 'a' <= c <= 'f'
  }

  lemma {:induction false} HexIsLower(n: nat)
    ensures forall i :: 0 <= i < |Hex(n)| ==> IsLowerHexDigit(Hex(n)[i])
  {
    if n >= 16 {
      HexIsLower(n / 16);
    }
  }

  lemma {:induction false} PaddingIsLower(s: string, width: nat)
    requires forall i :: 0 <= i < |s| ==> IsLowerHexDigit(s[i])
    ensures forall i :: 0 <= i < |Padded(s, width)| ==> IsLowerHexDigit(Padded(s, width)[i])
    decreases width - |s|
  {
    if |s| < width {
      PaddingIsLower("0" + s, width);
    }
  }

  lemma {:induction false} LowerIsLower(s: string)
    requires forall i :: 0 <= i < |s| ==> IsHexDigit(s[i])
    ensures forall i :: 0 <= i < |Lower(s)| ==> IsLowerHexDigit(Lower(s)[i])
  {
    if s != "" {
      LowerIsLower(s[1..]);
    }
  }

  /** The identifier is `0x` and eighty hexadecimal digits, all in lower case. */
  lemma IdIsLowerHex(tx: string, log: int)
    requires IsTxHash(tx) && IsInt64(log)
    ensures var id := Identifier(tx, log);
            |id| == 82 && id[0] == '0' && id[1] == 'x' && forall i :: 2 <= i < 82 ==> IsLowerHexDigit(id[i])
  {
    hide Lower, Hex, Padded, Stripped;
    var digits := tx[2..];
    LogReadsBack(log);
    HexIsLower(log % TWO_TO_THE_64);
    PaddingIsLower(Hex(log % TWO_TO_THE_64), 16);
    LowerIsLower(digits);
    StripsToDigits(tx);
  }

  lemma StripsToDigits(tx: string)
    requires IsTxHash(tx)
    ensures Stripped(tx) == tx[2..]
  {
    NothingToStrip(tx[2..]);
    assert tx[0] == tx[..2][0] && tx[1] == tx[..2][1];
  }
}
