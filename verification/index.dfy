/** Parsing of a Done/Remove argument token as a task index, as Rust's
    `usize::from_str` does it on a 64-bit target: an optional single leading '+',
    then one or more ASCII decimal digits, with a value that fits in a `usize`.
    Anything else -- the empty token, a lone '+', a '-' sign, any other character,
    an overflowing value -- is a parse error. */
module Index {
  import opened Wrappers

  /** `usize::MAX` on a 64-bit target. */
  const UsizeMax: nat := 0xFFFF_FFFF_FFFF_FFFF

  predicate IsDigit(c: char) {
    '0' <= c <= '9'
  }

  predicate IsDigits(s: string) {
    forall i :: 0 <= i < |s| ==> IsDigit(s[i])
  }

  function DigitValue(c: char): nat
    requires IsDigit(c)
  {
    (c as int) - ('0' as int)
  }

  /** The decimal value of a digit string, read most significant digit first. */
  function DigitsValue(ds: string): nat
    requires IsDigits(ds)
  {
    if ds == [] then 0 else DigitsValue(ds[..|ds| - 1]) * 10 + DigitValue(ds[|ds| - 1])
  }

  function DigitChar(d: nat): (c: char)
    requires d < 10
    ensures IsDigit(c) && DigitValue(c) == d
  {
    ('0' as int + d) as char
  }

  /** The token with its optional leading '+' removed. */
  function Unsigned(tok: string): string {
    if |tok| > 0 && tok[0] == '+' then tok[1..] else tok
  }

  function ParseIndex(tok: string): (r: Option<nat>)
    ensures r.Some? ==> r.value <= UsizeMax
    ensures r.Some? ==> |tok| > 0 && (tok[0] == '+' || IsDigit(tok[0]))
    ensures r.Some? ==> forall i :: 0 < i < |tok| ==> IsDigit(tok[i])
    ensures r.Some? ==> exists i :: 0 <= i < |tok| && IsDigit(tok[i])
  {
    var ds := Unsigned(tok);
    if |ds| > 0 && IsDigits(ds) && DigitsValue(ds) <= UsizeMax then
      assert IsDigit(ds[0]);
      Some(DigitsValue(ds))
    else
      None
  }

  /** The canonical decimal spelling of `n`: no sign, no leading zeros. */
  function ShowIndex(n: nat): (s: string)
    ensures |s| > 0 && IsDigits(s)
    ensures DigitsValue(s) == n
    ensures s[0] == '0' ==> s == "0"
  {
    if n < 10 then [DigitChar(n)]
    else
      var s := ShowIndex(n / 10) + [DigitChar(n % 10)];
      assert s[..|s| - 1] == ShowIndex(n / 10);
      s
  }

  /** Every index a `usize` can hold is read back from its decimal spelling,
      with or without a leading '+'; a larger number overflows and is rejected. */
  lemma ParseShowIndex(n: nat)
    ensures ParseIndex(ShowIndex(n)) == (if n <= UsizeMax then Some(n) else None)
    ensures ParseIndex("+" + ShowIndex(n)) == ParseIndex(ShowIndex(n))
  {
    assert ("+" + ShowIndex(n))[1..] == ShowIndex(n);
  }

  /** A leading zero does not change the value of a digit string. */
  lemma {:induction false} LeadingZeroValue(ds: string)
    requires IsDigits(ds)
    ensures IsDigits("0" + ds) && DigitsValue("0" + ds) == DigitsValue(ds)
  {
    if ds == [] {
      assert "0" + ds == "0";
    } else {
      var z := "0" + ds;
      assert z[..|z| - 1] == "0" + ds[..|ds| - 1];
      LeadingZeroValue(ds[..|ds| - 1]);
    }
  }

  /** Leading zeros are accepted and ignored: "007" is the index 7. */
  lemma LeadingZeroIndex(ds: string)
    requires |ds| > 0 && IsDigits(ds)
    ensures ParseIndex("0" + ds) == ParseIndex(ds)
    ensures ParseIndex("+0" + ds) == ParseIndex("+" + ds)
  {
    LeadingZeroValue(ds);
    assert ("+0" + ds)[0] == '+' && ("+0" + ds)[1..] == "0" + ds;
    assert ("+" + ds)[0] == '+' && ("+" + ds)[1..] == ds;
  }

  /** A signed, zero-padded token: "+05" is the index 5. */
  lemma SignedPaddedIndex()
    ensures ParseIndex("+05") == Some(5)
  {
    assert "5"[..0] == "" && DigitsValue("5") == 5;
    LeadingZeroIndex("5");
    assert "+0" + "5" == "+05";
    assert ("+" + "5")[1..] == "5";
  }

  /** Tokens the parser refuses: no digits, a lone or repeated sign, a minus sign. */
  lemma RejectedTokens(tok: string)
    ensures ParseIndex("") == None && ParseIndex("+") == None
    ensures ParseIndex("-" + tok) == None
    ensures ParseIndex("++" + tok) == None
  {
    assert ("-" + tok)[0] == '-';
    assert ("++" + tok)[1] == '+';
  }
}
