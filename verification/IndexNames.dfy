/** Numbers as property names: what an index is called, and what `parseInt(name, 10)` makes of any name. */
module IndexNames {
  import opened Nonces
  import opened Outcomes

  /** A whole number, or what `parseInt` returns for a text without one; a Map takes either as a key. */
  datatype Index = NaN | Num(value: int)

  /** The property name under which `record[index] = ..` files a value. */
  function Name(i: Index): string {
    match i
    case NaN => "NaN"
    case Num(v) => if v >= 0 then Decimal(v) else "-" + Decimal(-v)
  }

  /** White space and line terminators of JavaScript. */
  predicate IsSpace(c: char) {
    var code := c as int;
    9 <= code <= 13 || code in {0x20, 0xA0, 0x1680, 0x2028, 0x2029, 0x202F, 0x205F, 0x3000, 0xFEFF} || 0x2000 <= code <= 0x200A
  }

  function SkipSpace(text: string): string {
    if text != "" && IsSpace(text[0]) then SkipSpace(text[1..]) else text
  }

  /** The digits a text starts with. */
  function LeadingDigits(text: string): (digits: string)
    ensures forall i | 0 <= i < |digits| :: IsDigit(digits[i])
  {
    if text == "" || !IsDigit(text[0]) then "" else [text[0]] + LeadingDigits(text[1..])
  }

  function Unsigned(text: string): Index {
    if LeadingDigits(text) == "" then NaN else Num(ParseInt(LeadingDigits(text)))
  }

  function ParseIndex(text: string): Index {
    var t := SkipSpace(text);
    if t != "" && t[0] == '+' then Unsigned(t[1..])
    else if t != "" && t[0] == '-' then
      match Unsigned(t[1..])
      case NaN => NaN
      case Num(v) => Num(-v)
    else Unsigned(t)
  }

  lemma {:induction false} AllDigitsLead(text: string)
    requires forall i | 0 <= i < |text| :: IsDigit(text[i])
    ensures LeadingDigits(text) == text
  {
    if text != "" {
      AllDigitsLead(text[1..]);
      assert text == [text[0]] + text[1..];
    }
  }

  /** Every index is read back from its name, negative ones and NaN included. */
  lemma NameReadBack(i: Index)
    ensures ParseIndex(Name(i)) == i
  {
    match i
    case NaN =>
      assert SkipSpace("NaN") == "NaN" && LeadingDigits("NaN") == "";
    case Num(v) =>
      var digits := Decimal(if v >= 0 then v else -v);
      NumeralReadBack(if v >= 0 then v else -v);
      AllDigitsLead(digits);
      hide ParseInt, Decimal;
      assert IsDigit(digits[0]) && !IsSpace(digits[0]);
      if v < 0 {
        assert Name(i)[0] == '-' && Name(i)[1..] == digits;
      }
  }

  /** The last of the names that is read as this index. */
  function Chosen(names: seq<string>, x: Index): (k: Option<string>)
    ensures k.Some? ==> k.value in names && ParseIndex(k.value) == x
    ensures k.None? ==> forall name | name in names :: ParseIndex(name) != x
  {
    if names == [] then None
    else if ParseIndex(names[|names| - 1]) == x then Some(names[|names| - 1])
    else Chosen(names[..|names| - 1], x)
  }

  /** Names that indices have are read as different indices. */
  lemma ChosenIsName(names: seq<string>, x: Index)
    requires forall name | name in names :: Name(ParseIndex(name)) == name
    ensures Chosen(names, x) == if Name(x) in names then Some(Name(x)) else None
  {
    NameReadBack(x);
  }
}
