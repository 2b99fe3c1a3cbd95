/** Decoding the calculator's currency strings: every rupee sign and every
    comma is deleted and the residue is read as a Python float. */
module Currency {
  import opened Wrappers
  import opened Text
  import opened Decimal

  const Rupee: char := '\U{20B9}'

  predicate IsNoise(c: char) {
    c == Rupee || c == ','
  }

  /** `val.replace('₹', '').replace(',', '')`. */
  function Clean(s: string): (r: string)
    ensures |r| <= |s|
  {
    if |s| == 0 then ""
    else if IsNoise(s[0]) then Clean(s[1..])
    else [s[0]] + Clean(s[1..])
  }

  /** Cleaning distributes over concatenation, so it deletes exactly the
      noise characters and keeps every other one, in order. */
  lemma {:induction false} CleanAppend(a: string, b: string)
    ensures Clean(a + b) == Clean(a) + Clean(b)
  {
    if |a| == 0 {
      assert a + b == b;
    } else {
      assert (a + b)[1..] == a[1..] + b;
      CleanAppend(a[1..], b);
    }
  }

  /** A string without noise is left as it is. */
  lemma {:induction false} CleanKeepsPlain(s: string)
    requires forall i :: 0 <= i < |s| ==> !IsNoise(s[i])
    ensures Clean(s) == s
  {
    if |s| > 0 {
      CleanKeepsPlain(s[1..]);
    }
  }

  /** No rupee sign and no comma survives cleaning. */
  lemma {:induction false} CleanRemovesNoise(s: string)
    ensures forall i :: 0 <= i < |Clean(s)| ==> !IsNoise(Clean(s)[i])
  {
    if |s| > 0 {
      CleanRemovesNoise(s[1..]);
      if !IsNoise(s[0]) {
        assert Clean(s) == [s[0]] + Clean(s[1..]);
      }
    }
  }

  lemma CleanIdempotent(s: string)
    ensures Clean(Clean(s)) == Clean(s)
  {
    CleanRemovesNoise(s);
    CleanKeepsPlain(Clean(s));
  }

  /** `clean_value`: the decoded amount, or `None` when `float` would raise. */
  function CleanValue(s: string): Option<real> {
    match ParseFloat(Clean(s))
    case Some(d) => Some(ToReal(d))
    case None => None
  }

  /** Digits grouped in threes from the right with commas, as the calculator
      displays amounts. */
  function Group(ds: string): string
    decreases |ds|
  {
    if |ds| <= 3 then ds else Group(ds[..|ds| - 3]) + "," + ds[|ds| - 3..]
  }

  lemma {:induction false} CleanGroup(ds: string)
    requires AllDigits(ds)
    ensures Clean(Group(ds)) == ds
    decreases |ds|
  {
    if |ds| <= 3 {
      CleanKeepsPlain(ds);
    } else {
      var hi, lo := ds[..|ds| - 3], ds[|ds| - 3..];
      assert AllDigits(hi) && AllDigits(lo);
      CleanGroup(hi);
      CleanAppend(Group(hi) + ",", lo);
      CleanAppend(Group(hi), ",");
      CleanKeepsPlain(lo);
      assert Clean(",") == "";
      assert Clean(Group(hi) + ",") == hi;
      assert hi + lo == ds;
    }
  }

  /** The ASCII separator 0x1C is not white space to `float()`: a value
      preceded by it does not decode. */
  lemma DecodeRejectsSeparator()
    ensures CleanValue("\U{1C}5").None?
  {
    var s := "\U{1C}5";
    assert Clean(s) == s by { CleanKeepsPlain(s); }
    assert !IsSpace(s[0]) && !IsSpace(s[1]);
    TrimNoSpaceEnds(s);
  }

  /** An amount of `paise` hundredths of a rupee as the calculator shows it,
      for instance `₹1,234.56`. */
  function FormatRupees(paise: nat): string {
    [Rupee] + Group(NatToDigits(paise / 100)) + "." + TwoDigits(paise % 100)
  }

  lemma CleanFormatRupees(paise: nat)
    ensures Clean(FormatRupees(paise)) == NatToDigits(paise / 100) + "." + TwoDigits(paise % 100)
  {
    var g := Group(NatToDigits(paise / 100));
    var t := TwoDigits(paise % 100);
    assert FormatRupees(paise) == [Rupee] + (g + ("." + t));
    CleanAppend([Rupee], g + ("." + t));
    CleanAppend(g, "." + t);
    CleanGroup(NatToDigits(paise / 100));
    CleanKeepsPlain("." + t);
  }

  /** Reading `ip.fp` for digit strings `ip`, `fp`. */
  lemma {:induction false} ParsePointed(ip: string, fp: string)
    requires AllDigits(ip) && AllDigits(fp) && |ip| > 0 && |fp| > 0
    ensures AllDigits(ip + fp)
    ensures ParseFloat(ip + "." + fp) == Some(Decimal(false, DigitsValue(ip + fp), -|fp|))
  {
    AllDigitsAppend(ip, fp);
    var s := ip + "." + fp;
    DigitIsPlain(ip[0]);
    DigitIsPlain(fp[|fp| - 1]);
    assert s[0] == ip[0];
    assert s[|s| - 1] == fp[|fp| - 1];
    TrimNoSpaceEnds(s);
    assert SplitSign(s) == (false, s);
    forall k | 0 <= k < |s| ensures !IsExponentMark(s[k]) {
      if k < |ip| { DigitIsPlain(ip[k]); }
      else if k > |ip| { assert s[k] == fp[k - |ip| - 1]; DigitIsPlain(fp[k - |ip| - 1]); }
    }
    IndexOfExponentIs(s, |s|);
    assert s[..|s|] == s;
    forall k | 0 <= k < |ip| ensures s[k] != '.' { DigitIsPlain(ip[k]); }
    assert s[|ip|] == '.';
    IndexOfIs(s, '.', |ip|);
    assert s[..|ip|] == ip;
    assert s[|ip| + 1..] == fp;
  }

  lemma ScaleDivides(p: nat)
    ensures ToReal(Decimal(false, p, -2)) == p as real / 100.0
  {
    assert ScaleBy(p as real, -2) == ScaleBy(p as real / 10.0, -1);
  }

  lemma SplitHundreds(p: nat)
    ensures (p / 100) * 100 + p % 100 == p
  {
  }

  lemma {:induction false} PaiseDigits(paise: nat)
    ensures AllDigits(NatToDigits(paise / 100) + TwoDigits(paise % 100))
    ensures DigitsValue(NatToDigits(paise / 100) + TwoDigits(paise % 100)) == paise
  {
    var ip, fp := NatToDigits(paise / 100), TwoDigits(paise % 100);
    DigitsValueAppend(ip, fp);
    assert Pow10(|fp|) == 100;
    SplitHundreds(paise);
  }

  /** Decoding the displayed form of an amount gives back the amount exactly. */
  lemma {:induction false} DecodeFormatRupees(paise: nat)
    ensures CleanValue(FormatRupees(paise)) == Some(paise as real / 100.0)
  {
    var ip, fp := NatToDigits(paise / 100), TwoDigits(paise % 100);
    CleanFormatRupees(paise);
    ParsePointed(ip, fp);
    PaiseDigits(paise);
    ScaleDivides(paise);
  }

  lemma DigitsOf1234()
    ensures NatToDigits(1234) == "1234"
  {
    assert NatToDigits(1) == "1";
    assert NatToDigits(12) == "12";
    assert NatToDigits(123) == "123";
  }

  lemma GroupExample()
    ensures Group("1234") == "1,234"
  {
    assert Group("1") == "1";
  }

  lemma FormatExample()
    ensures FormatRupees(123456) == [Rupee] + "1,234.56"
  {
    assert 123456 / 100 == 1234 && 123456 % 100 == 56;
    assert FormatRupees(123456) == [Rupee] + Group(NatToDigits(1234)) + "." + TwoDigits(56);
    DigitsOf1234();
    GroupExample();
    assert TwoDigits(56) == "56";
    assert [Rupee] + "1,234" + "." + "56" == [Rupee] + "1,234.56";
  }

  /** The example the calculator's display is decoded by. */
  lemma DecodeExample()
    ensures CleanValue([Rupee] + "1,234.56") == Some(1234.56)
  {
    DecodeFormatRupees(123456);
    FormatExample();
  }

  lemma DecodeZero()
    ensures CleanValue([Rupee] + "0.00") == Some(0.0)
  {
    DecodeFormatRupees(0);
    assert FormatRupees(0) == [Rupee] + "0.00";
  }

  /** The rupee sign and the separators are optional: the bare number decodes
      to the same amount. */
  lemma DecodePlain()
    ensures CleanValue("1234.56") == Some(1234.56)
  {
    DecodeExample();
    CleanKeepsPlain("1234.56");
    CleanAppend([Rupee] + "1", ",234.56");
    assert [Rupee] + "1,234.56" == ([Rupee] + "1") + ",234.56";
  }

  /** A residue that is not a number is a decoding error, not a default of 0. */
  lemma DecodeRejectsEmpty()
    ensures CleanValue("") == None
    ensures CleanValue([Rupee]) == None
  {
    assert Clean([Rupee]) == "";
    assert Trim("") == "";
  }

  lemma DecodeRejectsPoint()
    ensures CleanValue(".") == None
  {
    assert Clean(".") == ".";
    assert Trim(".") == ".";
    assert IndexOf(".", '.') == 0;
  }

  lemma DecodeRejectsText()
    ensures CleanValue("N/A") == None
  {
    CleanKeepsPlain("N/A");
    assert Trim("N/A") == "N/A";
    assert IndexOf("N/A", '.') == 3;
  }
}
