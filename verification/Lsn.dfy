// Log sequence numbers and their text form (sync-engine/internal/models/lsn.go).
module Lsn {
  import opened Prelude

  const FIELD := 0x1_0000_0000

  type LSN = l: int | 0 <= l < 0x1_0000_0000_0000_0000

  // ---------------------------------------------------------------- hexadecimal text

  function HexDigit(d: int): char
    requires 0 <= d < 16
  {
    if d < 10 then '0' + d as char else 'A' + (d - 10) as char
  }

  function DigitValue(c: char): Option<int> {
    if '0' <= c <= '9' then Some(c as int - '0' as int)
    else if 'a' <= c <= 'f' then Some(c as int - 'a' as int + 10)
    else if 'A' <= c <= 'F' then Some(c as int - 'A' as int + 10)
    else None
  }

  predicate IsHex(s: string) {
    forall i :: 0 <= i < |s| ==> DigitValue(s[i]).Some?
  }

  // Positional value of a hexadecimal numeral.
  function HexValue(s: string): nat
    requires IsHex(s)
  {
    if s == "" then 0
    else HexValue(s[..|s| - 1]) * 16 + DigitValue(s[|s| - 1]).value
  }

  // One half of an LSN text: a non-empty numeral that fits 32 bits.
  predicate Field(s: string) {
    s != "" && IsHex(s) && HexValue(s) < FIELD
  }

  // The %X verb.
  function UpperHex(n: nat): string {
    if n < 16 then [HexDigit(n)] else UpperHex(n / 16) + [HexDigit(n % 16)]
  }

  function Zeros(n: nat): string {
    seq(n, _ => '0')
  }

  // The %08X verb: pads on the left, never truncates.
  function PaddedHex(n: nat): string {
    var digits := UpperHex(n);
    if |digits| < 8 then Zeros(8 - |digits|) + digits else digits
  }

  // strconv.ParseUint(s, 16, 32): reads left to right and gives up at the first bad digit or overflow.
  function ParseDigits(s: string, acc: nat): (r: Result<nat>)
    requires acc < FIELD
    ensures r.Ok? ==> r.value < FIELD
    decreases |s|
  {
    if s == "" then Ok(acc)
    else
      match DigitValue(s[0])
      case None => Err(InvalidLsn)
      case Some(d) =>
        if acc * 16 + d >= FIELD then Err(InvalidLsn) else ParseDigits(s[1..], acc * 16 + d)
  }

  function ParseUint32(s: string): (r: Result<nat>)
    ensures r.Ok? ==> r.value < FIELD
  {
    if s == "" then Err(InvalidLsn) else ParseDigits(s, 0)
  }

  function Split(s: string, sep: char): (parts: seq<string>)
    ensures |parts| >= 1
  {
    if s == "" then [""]
    else
      var rest := Split(s[1..], sep);
      if s[0] == sep then [""] + rest else [[s[0]] + rest[0]] + rest[1..]
  }

  // ---------------------------------------------------------------- the codec

  function High(l: LSN): nat { l / FIELD }

  function Low(l: LSN): nat { l % FIELD }

  // LSN.String
  function LsnText(l: LSN): string {
    UpperHex(High(l)) + "/" + PaddedHex(Low(l))
  }

  function ParseLSN(s: string): Result<LSN> {
    var parts := Split(s, '/');
    if |parts| != 2 then Err(InvalidLsn)
    else
      var high := ParseUint32(parts[0]);
      if high.Err? then Err(InvalidLsn)
      else
        var low := ParseUint32(parts[1]);
        if low.Err? then Err(InvalidLsn)
        else Ok(high.value * FIELD + low.value)
  }

  // last_synced_lsn is a pg_lsn column: PostgreSQL refuses text it cannot parse and renders the
  // stored number as %X/%X, without padding the low half.
  function ColumnText(l: LSN): string {
    UpperHex(High(l)) + "/" + UpperHex(Low(l))
  }

  // ---------------------------------------------------------------- proofs

  // The same value, accumulated from the left.
  function HexFrom(acc: nat, s: string): (v: nat)
    requires IsHex(s)
    ensures v >= acc
    decreases |s|
  {
    if s == "" then acc else HexFrom(acc * 16 + DigitValue(s[0]).value, s[1..])
  }

  lemma {:induction false} HexFromSnoc(acc: nat, s: string, c: char)
    requires IsHex(s) && DigitValue(c).Some?
    ensures IsHex(s + [c])
    ensures HexFrom(acc, s + [c]) == HexFrom(acc, s) * 16 + DigitValue(c).value
    decreases |s|
  {
    var t := s + [c];
    if s != "" {
      assert t[1..] == s[1..] + [c];
      HexFromSnoc(acc * 16 + DigitValue(s[0]).value, s[1..], c);
    } else {
      assert t[1..] == "";
    }
  }

  lemma {:induction false} HexFromIsValue(s: string)
    requires IsHex(s)
    ensures HexFrom(0, s) == HexValue(s)
  {
    if s != "" {
      var p := s[..|s| - 1];
      HexFromIsValue(p);
      HexFromSnoc(0, p, s[|s| - 1]);
      assert s == p + [s[|s| - 1]];
    }
  }

  lemma {:induction false} ParseDigitsExact(s: string, acc: nat)
    requires acc < FIELD
    ensures ParseDigits(s, acc).Ok? <==> IsHex(s) && HexFrom(acc, s) < FIELD
    ensures ParseDigits(s, acc).Ok? ==> ParseDigits(s, acc).value == HexFrom(acc, s)
    decreases |s|
  {
    if s != "" && DigitValue(s[0]).Some? {
      var next := acc * 16 + DigitValue(s[0]).value;
      assert IsHex(s) <==> IsHex(s[1..]) by {
        assert forall i :: 0 < i < |s| ==> s[i] == s[1..][i - 1];
      }
      if next < FIELD {
        ParseDigitsExact(s[1..], next);
      }
    }
  }

  // ParseUint32 accepts exactly the fields, whatever their leading zeros or letter case.
  lemma ParseUint32Exact(s: string)
    ensures ParseUint32(s).Ok? <==> Field(s)
    ensures ParseUint32(s).Ok? ==> ParseUint32(s).value == HexValue(s)
  {
    ParseDigitsExact(s, 0);
    if IsHex(s) {
      HexFromIsValue(s);
    }
  }

  lemma {:induction false} SplitNone(s: string, sep: char)
    requires sep !in s
    ensures Split(s, sep) == [s]
  {
    if s != "" {
      SplitNone(s[1..], sep);
      assert s == [s[0]] + s[1..];
    }
  }

  lemma {:induction false} SplitOnce(a: string, b: string, sep: char)
    requires sep !in a && sep !in b
    ensures Split(a + [sep] + b, sep) == [a, b]
  {
    var s := a + [sep] + b;
    if a == "" {
      assert s[1..] == b;
      SplitNone(b, sep);
    } else {
      assert s[1..] == a[1..] + [sep] + b;
      SplitOnce(a[1..], b, sep);
      assert a == [a[0]] + a[1..];
    }
  }

  lemma {:induction false} SplitOneMeans(s: string, sep: char)
    requires |Split(s, sep)| == 1
    ensures Split(s, sep) == [s]
  {
    if s != "" {
      SplitOneMeans(s[1..], sep);
      assert s == [s[0]] + s[1..];
    }
  }

  lemma {:induction false} SplitTwoMeans(s: string, sep: char)
    requires |Split(s, sep)| == 2
    ensures s == Split(s, sep)[0] + [sep] + Split(s, sep)[1]
  {
    if s[0] == sep {
      SplitOneMeans(s[1..], sep);
    } else {
      SplitTwoMeans(s[1..], sep);
    }
    assert s == [s[0]] + s[1..];
  }

  lemma HexHasNoSlash(s: string)
    requires IsHex(s)
    ensures '/' !in s
  {
    assert DigitValue('/').None?;
  }

  // ParseLSN succeeds on two fields around one slash ...
  lemma ParseAccepts(a: string, b: string)
    requires Field(a) && Field(b)
    ensures ParseLSN(a + "/" + b) == Ok(HexValue(a) * FIELD + HexValue(b))
  {
    assert Split(a + "/" + b, '/') == [a, b] by {
      HexHasNoSlash(a);
      HexHasNoSlash(b);
      SplitOnce(a, b, '/');
    }
    ParseUint32Exact(a);
    ParseUint32Exact(b);
  }

  // ... and on nothing else, with no other value.
  lemma ParseExact(s: string, l: LSN)
    ensures ParseLSN(s) == Ok(l) <==>
      exists a, b :: s == a + "/" + b && Field(a) && Field(b) && l == HexValue(a) * FIELD + HexValue(b)
  {
    if ParseLSN(s) == Ok(l) {
      var parts := Split(s, '/');
      SplitTwoMeans(s, '/');
      ParseUint32Exact(parts[0]);
      ParseUint32Exact(parts[1]);
      assert s == parts[0] + "/" + parts[1];
    }
    forall a, b | s == a + "/" + b && Field(a) && Field(b) && l == HexValue(a) * FIELD + HexValue(b)
      ensures ParseLSN(s) == Ok(l)
    {
      ParseAccepts(a, b);
    }
  }

  lemma {:induction false} UpperHexValue(n: nat)
    ensures IsHex(UpperHex(n)) && UpperHex(n) != "" && HexValue(UpperHex(n)) == n
  {
    if n < 16 {
      assert UpperHex(n)[..0] == "";
    } else {
      UpperHexValue(n / 16);
      var p, c := UpperHex(n / 16), HexDigit(n % 16);
      assert (p + [c])[..|p|] == p;
    }
  }

  lemma {:induction false} ZerosPrefix(k: nat, s: string)
    requires IsHex(s)
    ensures IsHex(Zeros(k) + s) && HexValue(Zeros(k) + s) == HexValue(s)
    decreases k + |s|
  {
    var t := Zeros(k) + s;
    if s != "" {
      ZerosPrefix(k, s[..|s| - 1]);
      assert t[..|t| - 1] == Zeros(k) + s[..|s| - 1];
    } else if k > 0 {
      ZerosPrefix(k - 1, "");
      assert t[..|t| - 1] == Zeros(k - 1) + "";
    }
  }

  lemma {:induction false} SameDigitsSameValue(s: string, t: string)
    requires |s| == |t| && IsHex(s)
    requires forall i :: 0 <= i < |s| ==> DigitValue(s[i]) == DigitValue(t[i])
    ensures IsHex(t) && HexValue(s) == HexValue(t)
  {
    if s != "" {
      SameDigitsSameValue(s[..|s| - 1], t[..|t| - 1]);
    }
  }

  // t spells the numeral s with extra leading zeros or other letter case.
  ghost predicate Respelled(s: string, t: string) {
    exists k: nat :: k + |s| == |t| && t[..k] == Zeros(k) &&
      forall i :: 0 <= i < |s| ==> DigitValue(s[i]) == DigitValue(t[k + i])
  }

  lemma RespelledField(s: string, t: string)
    requires Field(s) && Respelled(s, t)
    ensures Field(t) && HexValue(t) == HexValue(s)
  {
    var k: nat :| k + |s| == |t| && t[..k] == Zeros(k) &&
      forall i :: 0 <= i < |s| ==> DigitValue(s[i]) == DigitValue(t[k + i]);
    SameDigitsSameValue(s, t[k..]);
    ZerosPrefix(k, t[k..]);
    assert t == Zeros(k) + t[k..];
  }

  lemma ParseIgnoresSpelling(a: string, b: string, a': string, b': string)
    requires Field(a) && Field(b) && Respelled(a, a') && Respelled(b, b')
    ensures ParseLSN(a' + "/" + b') == ParseLSN(a + "/" + b)
  {
    RespelledField(a, a');
    RespelledField(b, b');
    ParseAccepts(a, b);
    ParseAccepts(a', b');
  }

  // A watermark survives its own text form and the column's.
  lemma LsnRoundTrip(l: LSN)
    ensures ParseLSN(LsnText(l)) == Ok(l)
    ensures ParseLSN(ColumnText(l)) == Ok(l)
    ensures ColumnText(l) != ""
  {
    var digits := UpperHex(Low(l));
    UpperHexValue(High(l));
    UpperHexValue(Low(l));
    if |digits| < 8 {
      ZerosPrefix(8 - |digits|, digits);
    }
    ParseAccepts(UpperHex(High(l)), PaddedHex(Low(l)));
    ParseAccepts(UpperHex(High(l)), digits);
  }

  lemma Halves(high: nat, low: nat, l: LSN)
    requires high < FIELD && low < FIELD && l == high * FIELD + low
    ensures High(l) == high && Low(l) == low
  {
  }

  // Numeric order is the lexicographic order of the two halves, for LSNs and for the texts that parse to them.
  lemma LsnOrder(a: string, b: string, c: string, d: string) returns (l: LSN, m: LSN)
    requires Field(a) && Field(b) && Field(c) && Field(d)
    ensures ParseLSN(a + "/" + b) == Ok(l) && ParseLSN(c + "/" + d) == Ok(m)
    ensures High(l) == HexValue(a) && Low(l) == HexValue(b)
    ensures l < m <==> HexValue(a) < HexValue(c) || (HexValue(a) == HexValue(c) && HexValue(b) < HexValue(d))
  {
    ParseAccepts(a, b);
    ParseAccepts(c, d);
    l, m := HexValue(a) * FIELD + HexValue(b), HexValue(c) * FIELD + HexValue(d);
    Halves(HexValue(a), HexValue(b), l);
  }
}
