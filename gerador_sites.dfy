/**
 * The site generator wizard: the CNPJ and WhatsApp inputs are masked as
 * they are typed, and the first step only lets the user go on once every
 * company field is filled in.
 */
module GeradorSites {
  import opened Base
  import opened Js

  /** `String(value || '')`. */
  function LooseText(v: JsValue): string { ToStr(Or(v, JStr(""))) }

  /** Typing a text back in reads that text. */
  lemma LooseTextOfText(s: string)
    ensures LooseText(JStr(s)) == s
  {
    if s == [] {
      assert Or(JStr(s), JStr("")) == JStr("");
    }
  }

  // ---------------------------------------------------------------------
  // CNPJ
  // ---------------------------------------------------------------------

  /** The first fourteen digits typed. */
  function CnpjDigits(v: JsValue): (d: string)
    ensures AllDigits(d) && |d| <= 14
  {
    Take(Digits(LooseText(v)), 14)
  }

  /** `if (p) out += (out ? sep : '') + p`. */
  function PushPart(out: string, sep: string, p: string): (r: string)
    requires AllDigits(p) && Digits(sep) == []
    ensures Digits(r) == Digits(out) + p
    ensures out == [] && p != [] ==> r == p
    ensures out != [] && p != [] ==> r == out + sep + p
  {
    if p == [] then
      assert Digits(out) + p == Digits(out);
      out
    else
      var s := if out != [] then sep else "";
      NoDigits("");
      DigitsPush(out, s, p);
      assert out == [] ==> out + s + p == p;
      out + s + p
  }

  /** The mask `NN.NNN.NNN/NNNN-NN` laid over at most fourteen digits, as far as they go. */
  function CnpjMask(d: string): string
    requires AllDigits(d) && |d| <= 14
  {
    NoDigits(".");
    NoDigits("/");
    NoDigits("-");
    NoDigits("");
    var o1 := PushPart("", "", Slice(d, 0, 2));
    var o2 := PushPart(o1, ".", Slice(d, 2, 5));
    var o3 := PushPart(o2, ".", Slice(d, 5, 8));
    var o4 := PushPart(o3, "/", Slice(d, 8, 12));
    PushPart(o4, "-", Slice(d, 12, 14))
  }

  /** The digits of the mask are the digits it was laid over. */
  lemma CnpjMaskDigits(d: string)
    requires AllDigits(d) && |d| <= 14
    ensures Digits(CnpjMask(d)) == d
  {
    NoDigits("");
    assert Digits("") == [];
    CnpjPieces(d);
  }

  /** Fourteen digits fill the whole mask. */
  lemma CnpjMaskFull(d: string)
    requires AllDigits(d) && |d| == 14
    ensures CnpjMask(d) == d[..2] + "." + d[2..5] + "." + d[5..8] + "/" + d[8..12] + "-" + d[12..]
  {
    NoDigits(".");
    NoDigits("/");
    NoDigits("-");
    NoDigits("");
    assert Slice(d, 0, 2) == d[..2] && Slice(d, 12, 14) == d[12..];
  }

  /** Fourteen digits come out as the eighteen characters `NN.NNN.NNN/NNNN-NN`. */
  lemma CnpjMaskShape(d: string)
    requires AllDigits(d) && |d| == 14
    ensures var r := CnpjMask(d); |r| == 18 && r[2] == '.' && r[6] == '.' && r[10] == '/' && r[15] == '-'
  {
    CnpjMaskFull(d);
    CnpjLayout(d[..2], d[2..5], d[5..8], d[8..12], d[12..]);
  }

  lemma CnpjLayout(a: string, b: string, c: string, e: string, f: string)
    requires |a| == 2 && |b| == 3 && |c| == 3 && |e| == 4 && |f| == 2
    ensures var r := a + "." + b + "." + c + "/" + e + "-" + f;
      |r| == 18 && r[2] == '.' && r[6] == '.' && r[10] == '/' && r[15] == '-'
  {
  }

  /**
   * `formatCNPJ`: the digits shown are the first fourteen typed, grouped as
   * `NN.NNN.NNN/NNNN-NN` as far as they go.
   */
  function FormatCnpj(v: JsValue): (r: string)
    ensures Digits(r) == CnpjDigits(v)
    ensures |CnpjDigits(v)| == 14 ==> |r| == 18 && r[2] == '.' && r[6] == '.' && r[10] == '/' && r[15] == '-'
  {
    var d := CnpjDigits(v);
    CnpjMaskDigits(d);
    if |d| == 14 then CnpjMaskShape(d); CnpjMask(d) else CnpjMask(d)
  }

  /** The five slices of at most fourteen digits put back together are the digits. */
  lemma CnpjPieces(d: string)
    requires |d| <= 14
    ensures Slice(d, 0, 2) + Slice(d, 2, 5) + Slice(d, 5, 8) + Slice(d, 8, 12) + Slice(d, 12, 14) == d
  {
  }

  /** Retyping a masked CNPJ reads back the same digits. */
  lemma CnpjDigitsOfMasked(v: JsValue)
    ensures CnpjDigits(JStr(FormatCnpj(v))) == CnpjDigits(v)
  {
    var r := FormatCnpj(v);
    LooseTextOfText(r);
    assert Take(CnpjDigits(v), 14) == CnpjDigits(v);
  }

  /** Masking a masked CNPJ changes nothing. */
  lemma FormatCnpjIdempotent(v: JsValue)
    ensures FormatCnpj(JStr(FormatCnpj(v))) == FormatCnpj(v)
  {
    CnpjDigitsOfMasked(v);
  }

  // ---------------------------------------------------------------------
  // WhatsApp
  // ---------------------------------------------------------------------

  /** The national number typed: the digits, without a leading country code 55, at most eleven of them. */
  function NationalDigits(v: JsValue): (n: string)
    ensures AllDigits(n) && |n| <= 11
  {
    var d := Digits(LooseText(v));
    var rest := if StartsWith(d, "55") then d[2..] else d;
    Take(rest, 11)
  }

  /** `if (p) out += sep + p`. */
  function PushAlways(out: string, sep: string, p: string): (r: string)
    requires AllDigits(p) && Digits(sep) == []
    ensures Digits(r) == Digits(out) + p
    ensures StartsWith(r, out)
  {
    if p == [] then
      assert Digits(out) + p == Digits(out);
      out
    else
      DigitsPush(out, sep, p);
      assert (out + sep + p)[..|out|] == out;
      out + sep + p
  }

  lemma CountryCodeDigits()
    ensures Digits("+55") == "55"
  {
    NoDigits("+");
    DigitsOfDigits("55");
    DigitsPush("", "+", "55");
    assert Digits("") == [];
    assert "" + "+" + "55" == "+55";
  }

  /** `+55 AA NNNNN-NNNN` for the national digits `d`, as far as they go. */
  function PhoneMask(d: string): string
    requires AllDigits(d) && |d| <= 11
  {
    NoDigits(" ");
    NoDigits("-");
    var o1 := PushAlways("+55", " ", Slice(d, 0, 2));
    var o2 := PushAlways(o1, " ", Slice(d, 2, 7));
    PushAlways(o2, "-", Slice(d, 7, 11))
  }

  /** The mask starts with the country code, and its digits are 55 and the national number. */
  lemma PhoneMaskDigits(d: string)
    requires AllDigits(d) && |d| <= 11
    ensures StartsWith(PhoneMask(d), "+55") && Digits(PhoneMask(d)) == "55" + d
  {
    NoDigits(" ");
    NoDigits("-");
    CountryCodeDigits();
    PhonePieces(d);
    PushThree("+55", " ", "-", Slice(d, 0, 2), Slice(d, 2, 7), Slice(d, 7, 11));
  }

  /** The three slices of at most eleven digits put back together are the digits. */
  lemma PhonePieces(d: string)
    requires AllDigits(d) && |d| <= 11
    ensures AllDigits(Slice(d, 0, 2)) && AllDigits(Slice(d, 2, 7)) && AllDigits(Slice(d, 7, 11))
    ensures Slice(d, 0, 2) + Slice(d, 2, 7) + Slice(d, 7, 11) == d
  {
  }

  /** Three digit runs pushed after `pre`: the digits grow by the runs and `pre` stays in front. */
  lemma PushThree(pre: string, sep: string, last: string, p1: string, p2: string, p3: string)
    requires AllDigits(p1) && AllDigits(p2) && AllDigits(p3) && Digits(sep) == [] && Digits(last) == []
    ensures var r := PushAlways(PushAlways(PushAlways(pre, sep, p1), sep, p2), last, p3);
      Digits(r) == Digits(pre) + (p1 + p2 + p3) && StartsWith(r, pre)
  {
    var o1 := PushAlways(pre, sep, p1);
    var o2 := PushAlways(o1, sep, p2);
    var o3 := PushAlways(o2, last, p3);
    assert Digits(pre) + p1 + p2 + p3 == Digits(pre) + (p1 + p2 + p3);
    StartsWithTrans(o3, o2, o1);
    StartsWithTrans(o3, o1, pre);
  }

  lemma StartsWithTrans(a: string, b: string, c: string)
    requires StartsWith(a, b) && StartsWith(b, c)
    ensures StartsWith(a, c)
  {
    assert a[..|c|] == a[..|b|][..|c|];
  }

  /**
   * `formatPhoneBR`: nothing when no national digits are left; otherwise
   * `+55 AA NNNNN-NNNN` as far as the digits go, whose digits are the
   * country code followed by the national number.
   */
  function FormatPhoneBr(v: JsValue): (r: string)
    ensures NationalDigits(v) == [] <==> r == []
    ensures r != [] ==> StartsWith(r, "+55") && Digits(r) == "55" + NationalDigits(v)
  {
    var d := NationalDigits(v);
    if d == [] then "" else PhoneMaskDigits(d); PhoneMask(d)
  }

  /** Masking a masked phone changes nothing: its digits are 55 and the national number again. */
  lemma FormatPhoneBrIdempotent(v: JsValue)
    ensures FormatPhoneBr(JStr(FormatPhoneBr(v))) == FormatPhoneBr(v)
  {
    var r := FormatPhoneBr(v);
    var n := NationalDigits(v);
    if r == [] {
      assert LooseText(JStr(r)) == "";
      assert Digits("") == [];
    } else {
      assert LooseText(JStr(r)) == r;
      var d := Digits(r);
      assert d == "55" + n;
      assert StartsWith(d, "55") && d[2..] == n;
      assert NationalDigits(JStr(r)) == n;
    }
  }

  // ---------------------------------------------------------------------
  // Wizard step 1
  // ---------------------------------------------------------------------

  /** The company fields of the first step. */
  datatype CompanyForm = CompanyForm(
    razao: JsValue,
    cnpj: JsValue,
    endereco: JsValue,
    whatsapp: JsValue,
    empresa: JsValue,
    empresaId: JsValue,
    empresaManual: bool)

  /** `String(v || '').trim().length > 0`. */
  predicate Filled(v: JsValue) { JsTrim(LooseText(v)) != [] }

  /** A field holds something other than whitespace. */
  predicate HasText(v: JsValue) { !AllIn(LooseText(v), IsJsSpace) }

  lemma FilledIff(v: JsValue)
    ensures Filled(v) <==> HasText(v)
  {
    TrimEmptyIff(LooseText(v), IsJsSpace);
  }

  /**
   * `canProceed`: on the first step the four company fields and the
   * company (typed, or chosen from the list) must be filled in; every
   * other step may always go on.
   */
  function CanProceed(step: int, f: CompanyForm): bool
  {
    if step == 1 then
      var empresaOk := if f.empresaManual then Filled(f.empresa) else Filled(f.empresaId);
      Filled(f.razao) && Filled(f.cnpj) && Filled(f.endereco) && Filled(f.whatsapp) && empresaOk
    else true
  }

  /** Filled means holding some text that is not whitespace, so the first step needs non-blank text in each field. */
  lemma CanProceedIff(step: int, f: CompanyForm)
    ensures CanProceed(step, f) <==> (step != 1 || (HasText(f.razao) && HasText(f.cnpj) && HasText(f.endereco)
      && HasText(f.whatsapp) && (if f.empresaManual then HasText(f.empresa) else HasText(f.empresaId))))
  {
    FilledIff(f.razao);
    FilledIff(f.cnpj);
    FilledIff(f.endereco);
    FilledIff(f.whatsapp);
    FilledIff(f.empresa);
    FilledIff(f.empresaId);
  }
}
