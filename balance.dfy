/**
 Balance extraction of bot.js: the pattern `/Current Balance\s*([\d,.]+)/i`, the
 text scan over the page's `div`, `span` and `p` elements, and the chain of strategies
 that `runCycle` tries one after the other, each guarded by the `balanceFound` flag.
 */
module Balance {
  import opened Wrappers
  import opened Text

  const Label := "Current Balance"

  /** `[\d,.]`. */
  predicate IsBalanceChar(c: char) {
    IsDigit(c) || c == ',' || c == '.'
  }

  /**
   `x` begins, letters compared without regard to case, with the label, then `w`
   white-space characters, then the balance `v`: a non-empty run of balance characters
   that is not followed by another one.
   */
  predicate Spells(x: string, w: nat, v: string) {
    StartsWithIgnoreCase(x, Label)
    && var rest := x[|Label|..];
    w + |v| <= |rest| && AllSatisfy(rest[..w], IsSpace)
    && v != [] && AllSatisfy(v, IsBalanceChar) && rest[w..w + |v|] == v
    && (w + |v| < |rest| ==> !IsBalanceChar(rest[w + |v|]))
  }

  /**
   The balance pattern anchored at the start of `x`, yielding capture group 1. `\s*` is
   greedy and a white-space character is not a balance character, so giving back white
   space never helps `[\d,.]+`: the greedy choice is the only one.
   */
  function BalanceAt(x: string): (r: Option<string>)
    ensures r.Some? ==> exists w :: Spells(x, w, r.value)
  {
    if !StartsWithIgnoreCase(x, Label) then None
    else
      var rest := x[|Label|..];
      var w := RunLength(rest, IsSpace);
      var n := RunLength(rest[w..], IsBalanceChar);
      if n == 0 then None
      else
        var v := rest[w..w + n];
        assert v == rest[w..][..n];
        assert Spells(x, w, v);
        Some(v)
  }

  /** Whenever the label, white space and a maximal balance run begin `x`, the pattern captures that run. */
  lemma {:induction false} BalanceAtComplete(x: string, w: nat, v: string)
    requires Spells(x, w, v)
    ensures BalanceAt(x) == Some(v)
  {
    var rest := x[|Label|..];
    AllSatisfyPrefix(v, IsBalanceChar, |v|);
    assert rest[w] == v[0];
    RunLengthUnique(rest, IsSpace, w);
    var tail := rest[w..];
    assert tail[..|v|] == v;
    assert |v| < |tail| ==> tail[|v|] == rest[w + |v|];
    RunLengthUnique(tail, IsBalanceChar, |v|);
  }

  /** `text.match(/Current Balance\s*([\d,.]+)/i)[1]`, or `None` when there is no match. */
  function ExtractBalance(text: string): (r: Option<string>)
    ensures r.Some? ==> r.value != [] && AllSatisfy(r.value, IsBalanceChar)
    ensures r.None? <==> forall j {:trigger BalanceAt(text[j..])} :: 0 <= j <= |text| ==> BalanceAt(text[j..]).None?
  {
    match FirstMatch(text, 0, BalanceAt)
    case Some(m) => Some(m.value)
    case None => None
  }

  /**
   The extraction yields the balance after the leftmost occurrence of the label that is
   followed by one: earlier occurrences without a balance are skipped.
   */
  lemma {:induction false} ExtractBalanceLeftmost(text: string, i: nat, w: nat, v: string)
    requires i <= |text| && Spells(text[i..], w, v)
    requires forall j {:trigger BalanceAt(text[j..])} :: 0 <= j < i ==> BalanceAt(text[j..]).None?
    ensures ExtractBalance(text) == Some(v)
  {
    BalanceAtComplete(text[i..], w, v);
    var r := FirstMatch(text, 0, BalanceAt);
    assert r.Some? && r.value.at == i;
  }

  /** A dashboard text: the run stops at the space before the currency. */
  lemma ExtractBalanceExample()
    ensures ExtractBalance("Current Balance 1,234.50 USD") == Some("1,234.50")
  {
    var text := "Current Balance 1,234.50 USD";
    assert Spells(text[0..], 1, "1,234.50");
    ExtractBalanceLeftmost(text, 0, 1, "1,234.50");
  }

  /** The label is matched whatever its case, and a line break counts as white space. */
  lemma ExtractBalanceIgnoresCase()
    ensures ExtractBalance("CURRENT BALANCE\n12.5") == Some("12.5")
  {
    var text := "CURRENT BALANCE\n12.5";
    assert Spells(text[0..], 1, "12.5");
    ExtractBalanceLeftmost(text, 0, 1, "12.5");
  }

  /** What one element of the text scan contributes: its text must include the label exactly, case and all. */
  function ElementBalance(text: string): (r: Option<string>)
    ensures Contains(text, Label) ==> r == ExtractBalance(text)
    ensures !Contains(text, Label) ==> r.None?
  {
    if text != [] && Contains(text, Label) then ExtractBalance(text) else None
  }

  /** The text scan: the balance of the first element in document order that yields one. */
  function FirstElementBalance(texts: seq<string>): (r: Option<string>)
    ensures r.None? <==> forall k :: 0 <= k < |texts| ==> ElementBalance(texts[k]).None?
    ensures r.Some? ==> exists k :: FirstYielding(texts, ElementBalance, k, r.value)
  {
    FirstSome(texts, ElementBalance)
  }

  /** The loop over `document.querySelectorAll('div, span, p')` with its early return. */
  method ScanElements(texts: seq<string>) returns (r: Option<string>)
    ensures r == FirstElementBalance(texts)
  {
    for k := 0 to |texts|
      invariant FirstSome(texts[k..], ElementBalance) == FirstSome(texts, ElementBalance)
    {
      var text := texts[k];
      assert texts[k..][1..] == texts[k + 1..];
      if text != [] && Contains(text, Label) {
        var m := ExtractBalance(text);
        if m.Some? {
          return m;
        }
      }
    }
    assert texts[|texts|..] == [];
    return None;
  }

  /**
   What the page offers each balance strategy: the text of the first `span` in the
   balance container, the text of the element at the original selector, the texts of
   every `div`, `span` and `p` in document order, and the text of the element at the
   generic selector. `None` means the selector (or the span) was not found in time.
   */
  datatype BalanceProbe = BalanceProbe(
    containerSpan: Option<string>,
    originalText: Option<string>,
    elementTexts: seq<string>,
    genericText: Option<string>)

  /** The original selector's strategy: the balance pattern over that element's text. */
  function OriginalBalance(p: BalanceProbe): (r: Option<string>)
    ensures p.originalText.Some? ==> r == ExtractBalance(p.originalText.value)
    ensures r.Some? ==> p.originalText.Some? && r.value != [] && AllSatisfy(r.value, IsBalanceChar)
    ensures p.originalText.Some? && r.None? ==> forall j {:trigger BalanceAt(p.originalText.value[j..])} ::
              0 <= j <= |p.originalText.value| ==> BalanceAt(p.originalText.value[j..]).None?
  {
    match p.originalText
    case Some(t) => ExtractBalance(t)
    case None => None
  }

  /** The generic selector's strategy: that element's text, trimmed. */
  function GenericBalance(p: BalanceProbe): (r: Option<string>)
    ensures r.Some? <==> p.genericText.Some?
    ensures r.Some? ==> exists i :: IsTrimmingOf(r.value, p.genericText.value, i)
    ensures r.Some? && r.value != [] ==> !IsSpace(r.value[0]) && !IsSpace(r.value[|r.value| - 1])
  {
    match p.genericText
    case Some(t) => Some(Trim(t))
    case None => None
  }

  /** The balance the strategies yield, tried in the order `runCycle` tries them. */
  function SelectBalance(p: BalanceProbe): (r: Option<string>)
    ensures r.None? <==> p.containerSpan.None? && OriginalBalance(p).None?
                         && FirstElementBalance(p.elementTexts).None? && p.genericText.None?
    ensures p.containerSpan.Some? ==> r == p.containerSpan
    ensures p.containerSpan.None? && OriginalBalance(p).Some? ==> r == OriginalBalance(p)
    ensures p.containerSpan.None? && OriginalBalance(p).None? && FirstElementBalance(p.elementTexts).Some?
            ==> r == FirstElementBalance(p.elementTexts)
    ensures p.containerSpan.None? && OriginalBalance(p).None? && FirstElementBalance(p.elementTexts).None?
            ==> r == GenericBalance(p)
  {
    if p.containerSpan.Some? then p.containerSpan
    else if OriginalBalance(p).Some? then OriginalBalance(p)
    else if FirstElementBalance(p.elementTexts).Some? then FirstElementBalance(p.elementTexts)
    else GenericBalance(p)
  }

  /**
   The balance read of `runCycle`: four strategies, each tried only while `balanceFound`
   is still false. `None` stands for the error thrown when all of them fail.
   */
  method ReadBalance(p: BalanceProbe) returns (r: Option<string>)
    ensures r == SelectBalance(p)
  {
    var balance := "0";
    var balanceFound := false;
    if p.containerSpan.Some? {
      balance := p.containerSpan.value;
      balanceFound := true;
    }
    if !balanceFound && p.originalText.Some? {
      var m := ExtractBalance(p.originalText.value);
      if m.Some? {
        balance := m.value;
        balanceFound := true;
      }
    }
    if !balanceFound {
      var m := ScanElements(p.elementTexts);
      if m.Some? {
        balance := m.value;
        balanceFound := true;
      }
    }
    if !balanceFound && p.genericText.Some? {
      balance := Trim(p.genericText.value);
      balanceFound := true;
    }
    r := if balanceFound then Some(balance) else None;
  }
}
