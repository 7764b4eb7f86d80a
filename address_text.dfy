/**
 * Account addresses as the clients see them: text of the form "0x" followed
 * by forty hexadecimal digits. The chain hands addresses to the clients as
 * such text, and the clients hand text back when they create an election.
 */
module AddressText {
  import opened Wrappers
  import opened JsString
  import opened Ledger

  /** 16 to the power k, which exceeds k. */
  function Pow16(k: nat): (p: nat)
    ensures p >= 1
    ensures p > k
  {
    if k == 0 then 1 else 16 * Pow16(k - 1)
  }

  /** The low `k` hexadecimal digits of `a`, most significant first, lower case. */
  function HexDigits(a: nat, k: nat): (r: string)
    ensures |r| == k
    ensures forall i :: 0 <= i < k ==> DigitValue(r[i], 16).Some? && LowerChar(r[i]) == r[i]
  {
    if k == 0 then [] else HexDigits(a / 16, k - 1) + [DigitChar(a % 16)]
  }

  /** The text of an address, all in lower case. */
  function HexAddress(a: Address): (r: string)
    ensures |r| == 42 && r[..2] == "0x"
    ensures forall i :: 2 <= i < 42 ==> DigitValue(r[i], 16).Some?
    ensures Lower(r) == r
  {
    "0x" + HexDigits(a, 40)
  }

  /** How an address given as text is read when it is passed to a contract
      call: "0x" and exactly forty hexadecimal digits of either case. Any
      other text is taken for a name to resolve, which the local chain
      cannot do, so the call fails. */
  function ParseAddress(s: string): (r: Option<Address>)
    ensures r.Some? <==> |s| == 42 && s[..2] == "0x" && forall i :: 2 <= i < 42 ==> DigitValue(s[i], 16).Some?
    ensures r.Some? ==> HexAddress(r.value) == Lower(s)
  {
    if |s| == 42 && s[..2] == "0x" && forall i :: 2 <= i < 42 ==> DigitValue(s[i], 16).Some? then
      var digits := s[2..];
      var v := DigitsValue(digits, 16);
      HexValueBound(digits);
      AddressBound();
      HexDigitsOfValue(digits);
      assert Lower(s) == "0x" + Lower(digits);
      Some(v as Address)
    else None
  }

  lemma {:induction false} HexValueBound(ds: string)
    requires forall i :: 0 <= i < |ds| ==> DigitValue(ds[i], 16).Some?
    ensures DigitsValue(ds, 16) < Pow16(|ds|)
  {
    if ds != [] {
      var init := ds[..|ds| - 1];
      HexValueBound(init);
      assert DigitsValue(ds, 16) == DigitsValue(init, 16) * 16 + DigitOf(ds[|ds| - 1], 16);
      assert DigitsValue(init, 16) + 1 <= Pow16(|init|);
      assert (DigitsValue(init, 16) + 1) * 16 <= Pow16(|init|) * 16;
    }
  }

  /** Below 16^k, the k digits written by HexDigits read back as `a`. */
  lemma {:induction false} HexDigitsValue(a: nat, k: nat)
    requires a < Pow16(k)
    ensures DigitsValue(HexDigits(a, k), 16) == a
  {
    if k > 0 {
      var r := HexDigits(a, k);
      var q, d := a / 16, a % 16;
      assert q < Pow16(k - 1);
      HexDigitsValue(q, k - 1);
      assert r[..k - 1] == HexDigits(q, k - 1);
      DigitCharValue(d, 16);
    }
  }

  /** Hexadecimal digits, read as a number and written back with as many
      digits, come out in lower case. */
  lemma {:induction false} HexDigitsOfValue(ds: string)
    requires forall i :: 0 <= i < |ds| ==> DigitValue(ds[i], 16).Some?
    ensures HexDigits(DigitsValue(ds, 16), |ds|) == Lower(ds)
  {
    if ds != [] {
      var init, c := ds[..|ds| - 1], ds[|ds| - 1];
      HexDigitsOfValue(init);
      var v := DigitsValue(ds, 16);
      assert v / 16 == DigitsValue(init, 16) && v % 16 == DigitOf(c, 16);
      HexDigitChar(c);
      assert Lower(ds) == Lower(init) + [LowerChar(c)];
    }
  }

  lemma AddressBound()
    ensures Pow16(40) == 0x1_0000_0000_0000_0000_0000_0000_0000_0000_0000_0000
  {
    assert Pow16(10) == 0x100_0000_0000;
    assert Pow16(20) == 0x1_0000_0000_0000_0000_0000;
    assert Pow16(30) == 0x100_0000_0000_0000_0000_0000_0000_0000;
  }

  /** Reading the text of an address gives the address back. */
  lemma ParseHexAddress(a: Address)
    ensures ParseAddress(HexAddress(a)) == Some(a)
  {
    var s := HexAddress(a);
    assert s[2..] == HexDigits(a, 40);
    AddressBound();
    HexDigitsValue(a, 40);
  }

  /** Distinct addresses have distinct texts. */
  lemma HexAddressInjective(a: Address, b: Address)
    ensures HexAddress(a) == HexAddress(b) <==> a == b
  {
    ParseHexAddress(a);
    ParseHexAddress(b);
  }

  /** Two texts name the same account when they agree ignoring case, which is
      how the owner reported by a ledger is compared with the connected
      account. */
  predicate SameAccount(x: string, y: string) {
    Lower(x) == Lower(y)
  }

  /** Whatever casing the reported owner text has, it matches the connected
      account text exactly when that text, lowered, is the owner's address,
      and for an account text that names address `b` this means `b` is the
      owner. */
  lemma SameAccountAsOwner(owner: Address, ownerText: string, account: string)
    requires Lower(ownerText) == HexAddress(owner)
    ensures SameAccount(ownerText, account) <==> Lower(account) == HexAddress(owner)
    ensures forall b: Address :: Lower(account) == HexAddress(b) ==>
              (SameAccount(ownerText, account) <==> b == owner)
  {
    forall b: Address | Lower(account) == HexAddress(b)
      ensures SameAccount(ownerText, account) <==> b == owner
    {
      HexAddressInjective(b, owner);
    }
  }
}
