// Decimal numbers on the wire: how lengths are printed, and what Python's int() accepts.
module Decimal {
  import opened Bytes

  predicate IsDigit(b: byte) { 48 <= b <= 57 }

  // str(n).encode()
  function Print(n: nat): (r: Bytes)
    ensures r != []
  {
    if n < 10 then [(48 + n) as byte] else Print(n / 10) + [(48 + n % 10) as byte]
  }

  // A number with an optional sign.
  function PrintInt(n: int): Bytes
  {
    if n < 0 then [45] + Print(-n) else Print(n)
  }

  predicate IsSpace(b: byte) { b == 32 || 9 <= b <= 13 }

  function TrimLeft(s: Bytes): Bytes
  {
    if s != [] && IsSpace(s[0]) then TrimLeft(s[1..]) else s
  }

  function TrimRight(s: Bytes): Bytes
  {
    if s != [] && IsSpace(s[|s| - 1]) then TrimRight(s[..|s| - 1]) else s
  }

  // Digits, with single underscores allowed between them.
  function Digits(s: Bytes): Option<nat>
  {
    if s == [] || !IsDigit(s[|s| - 1]) then None
    else
      var d := s[|s| - 1] as nat - 48;
      var rest := s[..|s| - 1];
      if rest == [] then Some(d)
      else
        var higher := Digits(if rest[|rest| - 1] == 95 then rest[..|rest| - 1] else rest);
        if higher.None? then None else Some(higher.value * 10 + d)
  }

  // int(line) for a byte string: None is the ValueError.
  function ParseInt(line: Bytes): Option<int>
  {
    var s := TrimRight(TrimLeft(line));
    if s != [] && (s[0] == 43 || s[0] == 45) then
      var n := Digits(s[1..]);
      if n.None? then None
      else
        var v: int := n.value;
        Some(if s[0] == 45 then -v else v)
    else
      var n := Digits(s);
      if n.None? then None else Some(n.value)
  }

  ghost predicate AllDigits(s: Bytes) { forall i :: 0 <= i < |s| ==> IsDigit(s[i]) }

  lemma {:induction false} DigitsOfPrint(n: nat)
    ensures AllDigits(Print(n)) && Digits(Print(n)) == Some(n)
  {
    if n >= 10 {
      DigitsOfPrint(n / 10);
      var p := Print(n / 10);
      assert Print(n)[..|Print(n)| - 1] == p;
      assert IsDigit(p[|p| - 1]);
    }
  }

  // Parsing what was printed gives the number back.
  lemma ParsePrint(n: int)
    ensures ParseInt(PrintInt(n)) == Some(n)
    ensures forall i :: 0 <= i < |PrintInt(n)| ==> IsDigit(PrintInt(n)[i]) || PrintInt(n)[i] == 45
  {
    var p := if n < 0 then Print(-n) else Print(n);
    DigitsOfPrint(if n < 0 then -n else n);
    var s := PrintInt(n);
    assert n < 0 ==> s[1..] == p;
    assert !IsSpace(s[0]) && !IsSpace(s[|s| - 1]);
    assert TrimLeft(s) == s && TrimRight(s) == s;
  }
}
