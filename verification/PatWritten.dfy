/**
  How patterns are written.  Each item has a text, said here without the scanner; the scanner
  reads the texts of a list of items, one after another, as that list.
 */
module PatWritten {
  import opened Wrappers
  import opened PatSyntax
  import opened PatReading
  import opened PatMatch
  import opened PatGsub

  // ---------------------------------------------------------------- the text of items

  function ElemText(el: Elem): string {
    match el
    case One(c) => [c]
    case Escaped(cl) => ['%', cl]
    case Range(lo, hi) => [lo, '-', hi]
  }

  function ElemsText(els: seq<Elem>): string {
    if els == [] then [] else ElemText(els[0]) + ElemsText(els[1..])
  }

  function ClassText(cls: Class): string {
    match cls
    case Any => "."
    case Literal(c) => [c]
    case Esc(cl) => ['%', cl]
    case Set(negated, elems) => "[" + (if negated then "^" else "") + ElemsText(elems) + "]"
  }

  function RepeatText(rep: Repeat): string {
    match rep
    case Once => ""
    case Optional => "?"
    case Greedy => "*"
    case GreedyPlus => "+"
    case Lazy => "-"
  }

  function ItemText(item: Item): string {
    match item
    case Open => "("
    case OpenPosition => "()"
    case Close => ")"
    case Balance(b, e) => ['%', 'b', b, e]
    case Frontier(cls) => "%f" + ClassText(cls)
    case Back(digit) => ['%', digit]
    case AtEnd => "$"
    case Single(cls, rep) => ClassText(cls) + RepeatText(rep)
    case Malformed(_) => ""
  }

  function PatternText(items: seq<Item>): string {
    if items == [] then [] else ItemText(items[0]) + PatternText(items[1..])
  }

  // ---------------------------------------------------------------- what can be written so

  /** In a set a bracket, a caret, a minus and a percent sign are written with `%`. */
  predicate ElemOk(el: Elem) {
    match el
    case One(c) => c !in "%]^-"
    case Escaped(_) => true
    case Range(lo, hi) => lo !in "%]^-" && hi !in "%]"
  }

  predicate SetOk(cls: Class) {
    cls.Set? && cls.elems != [] && forall i :: 0 <= i < |cls.elems| ==> ElemOk(cls.elems[i])
  }

  /** A magic character stands for itself only after `%`; a letter or digit that is an item of its own does not. */
  predicate ClassOk(cls: Class) {
    match cls
    case Any => true
    case Literal(c) => c !in "^$*+?.([%-)"
    case Esc(cl) => cl !in "bf0123456789"
    case Set(_, _) => SetOk(cls)
  }

  predicate ItemOk(item: Item) {
    match item
    case Frontier(cls) => SetOk(cls)
    case Back(digit) => digit in "0123456789"
    case Single(cls, _) => ClassOk(cls)
    case Malformed(_) => false
    case _ => true
  }

  /** `$` comes last, and a capture is not empty: `()` is the capture of a position. */
  predicate Follows(item: Item, next: seq<Item>) {
    && (item.AtEnd? ==> next == [])
    && (item.Open? && next != [] ==> !next[0].Close?)
  }

  predicate Legible(items: seq<Item>) {
    items != [] ==> ItemOk(items[0]) && Follows(items[0], items[1..]) && Legible(items[1..])
  }

  // ---------------------------------------------------------------- texts at their places

  /** `text` stands in `p` at `q`. */
  predicate Has(p: string, q: nat, text: string) {
    q + |text| <= |p| && forall i :: q <= i < q + |text| ==> p[i] == text[i - q]
  }

  lemma HasBoth(p: string, q: nat, a: string, b: string)
    requires Has(p, q, a + b)
    ensures Has(p, q, a) && Has(p, q + |a|, b)
  {
    forall i | q <= i < q + |a|
      ensures p[i] == a[i - q]
    {
      assert (a + b)[i - q] == a[i - q];
    }
    forall i | q + |a| <= i < q + |a| + |b|
      ensures p[i] == b[i - (q + |a|)]
    {
      assert (a + b)[i - q] == b[i - (q + |a|)];
    }
  }

  lemma HasAt(p: string, q: nat, text: string, k: nat)
    requires Has(p, q, text) && k < |text|
    ensures p[q + k] == text[k] == CharAt(p, q + k)
  {
  }

  lemma HasElem(p: string, q: nat, el: Elem)
    requires Has(p, q, ElemText(el))
    ensures match el
      case One(c) => CharAt(p, q) == c
      case Escaped(cl) => CharAt(p, q) == '%' && CharAt(p, q + 1) == cl
      case Range(lo, hi) => CharAt(p, q) == lo && CharAt(p, q + 1) == '-' && CharAt(p, q + 2) == hi
  {
    HasAt(p, q, ElemText(el), 0);
    if !el.One? {
      HasAt(p, q, ElemText(el), 1);
    }
    if el.Range? {
      HasAt(p, q, ElemText(el), 2);
    }
  }

  // ---------------------------------------------------------------- sets

  predicate ElemsOk(els: seq<Elem>) {
    forall i :: 0 <= i < |els| ==> ElemOk(els[i])
  }

  /** What comes after an element of a set is another element or the closing bracket. */
  lemma NextElem(p: string, q: nat, els: seq<Elem>)
    requires els != [] && ElemsOk(els) && Has(p, q, ElemsText(els) + "]")
    ensures Has(p, q, ElemText(els[0])) && Has(p, q + |ElemText(els[0])|, ElemsText(els[1..]) + "]")
    ensures var c := CharAt(p, q + |ElemText(els[0])|); c != '-' && (c == ']' <==> els[1..] == [])
    ensures q + |ElemText(els[0])| < |p|
  {
    hide Has, ElemText, ElemOk;
    var a, b := ElemText(els[0]), ElemsText(els[1..]) + "]";
    assert ElemsText(els) + "]" == a + b;
    HasBoth(p, q, a, b);
    HasAt(p, q + |a|, b, 0);
    HasIn(p, q + |a|, b);
    if els[1..] != [] {
      ElemStart(els[1]);
      assert ElemsText(els[1..]) == ElemText(els[1]) + ElemsText(els[1..][1..]);
    }
  }

  lemma ElemStart(el: Elem)
    ensures ElemText(el) != []
    ensures ElemOk(el) ==> ElemText(el)[0] != ']' && ElemText(el)[0] != '-'
  {
  }

  lemma HasIn(p: string, q: nat, text: string)
    requires Has(p, q, text)
    ensures q + |text| <= |p|
  {
  }

  lemma {:induction false} SetEndAt(p: string, q: nat, els: seq<Elem>)
    requires els != [] && ElemsOk(els) && Has(p, q, ElemsText(els) + "]")
    ensures SetEnd(p, q) == Ok(q + |ElemsText(els)|)
    decreases |els|
  {
    hide Has;
    var el := els[0];
    NextElem(p, q, els);
    HasElem(p, q, el);
    HasElemOk(el, els);
    var next := q + |ElemText(el)|;
    OneElem(p, q, el);
    if els[1..] != [] {
      SetEndAt(p, next, els[1..]);
    }
  }

  lemma HasElemOk(el: Elem, els: seq<Elem>)
    requires ElemsOk(els) && els != [] && els[0] == el
    ensures ElemOk(el) && ElemsOk(els[1..])
  {
  }

  /** Past one element the scan is at its end, or goes on. */
  lemma OneElem(p: string, q: nat, el: Elem)
    requires ElemOk(el) && Has(p, q, ElemText(el)) && q + |ElemText(el)| < |p|
    ensures var next := q + |ElemText(el)|; SetEnd(p, q) == if CharAt(p, next) == ']' then Ok(next) else SetEnd(p, next)
  {
    HasElem(p, q, el);
    hide Has;
    if el.Range? {
      assert SetEnd(p, q) == SetEnd(p, q + 1);
      assert SetEnd(p, q + 1) == SetEnd(p, q + 2);
    }
  }

  lemma {:induction false} ElemsAt(p: string, q: nat, els: seq<Elem>)
    requires ElemsOk(els) && Has(p, q, ElemsText(els) + "]")
    ensures Elems(p, q, q + |ElemsText(els)|) == els
    decreases |els|
  {
    hide Has;
    if els != [] {
      NextElem(p, q, els);
      HasElem(p, q, els[0]);
      HasElemOk(els[0], els);
      var next := q + |ElemText(els[0])|;
      ElemsAt(p, next, els[1..]);
    }
  }

  lemma SetBack(p: string, q: nat, cls: Class)
    requires SetOk(cls) && Has(p, q, ClassText(cls))
    ensures CharAt(p, q) == '[' && q < |p| && ClassEnd(p, q) == Ok(q + |ClassText(cls)|)
      && SetAt(p, q, q + |ClassText(cls)| - 1) == cls
  {
    hide Has, ElemsText, ElemOk;
    var caret := if cls.negated then "^" else "";
    var body := ElemsText(cls.elems) + "]";
    assert ClassText(cls) == "[" + (caret + body);
    HasAt(p, q, ClassText(cls), 0);
    HasIn(p, q, ClassText(cls));
    HasBoth(p, q, "[", caret + body);
    HasBoth(p, q + 1, caret, body);
    HasAt(p, q + 1, caret + body, 0);
    ElemsStart(cls.elems);
    var start := q + 1 + |caret|;
    SetEndAt(p, start, cls.elems);
    ElemsAt(p, start, cls.elems);
    hide SetEnd, Elems;
  }

  lemma ElemsStart(els: seq<Elem>)
    requires els != [] && ElemsOk(els)
    ensures ElemsText(els) != [] && ElemsText(els)[0] != '^'
  {
    assert ElemOk(els[0]);
  }

  lemma ClassBack(p: string, q: nat, cls: Class)
    requires ClassOk(cls) && Has(p, q, ClassText(cls))
    ensures q < |p| && ClassEnd(p, q) == Ok(q + |ClassText(cls)|) && ClassAt(p, q, q + |ClassText(cls)|) == cls
    ensures CharAt(p, q) !in "()$" && (CharAt(p, q) == '%' ==> CharAt(p, q + 1) !in "bf0123456789")
  {
    HasIn(p, q, ClassText(cls));
    if cls.Set? {
      SetBack(p, q, cls);
      hide ClassText, SetOk, Has, SetAt, SetEnd;
    } else {
      HasAt(p, q, ClassText(cls), 0);
      if cls.Esc? {
        HasAt(p, q, ClassText(cls), 1);
      }
      hide Has;
    }
  }

  /** What may come after an item: no repetition sign. */
  predicate NoSign(c: char) {
    c != '?' && c != '*' && c != '+' && c != '-'
  }

  lemma SingleBack(p: string, q: nat, item: Item)
    requires item.Single? && ItemOk(item) && Has(p, q, ItemText(item))
    requires item.rep == Once ==> NoSign(CharAt(p, q + |ItemText(item)|))
    ensures q < |p| && ItemAt(p, q) == (item, q + |ItemText(item)|)
  {
    hide Has, ClassText, ClassOk, ClassEnd, ClassAt;
    HasBoth(p, q, ClassText(item.cls), RepeatText(item.rep));
    ClassBack(p, q, item.cls);
    var ep := q + |ClassText(item.cls)|;
    if item.rep != Once {
      HasAt(p, ep, RepeatText(item.rep), 0);
    }
  }

  lemma FrontierBack(p: string, q: nat, item: Item)
    requires item.Frontier? && ItemOk(item) && Has(p, q, ItemText(item))
    ensures q < |p| && ItemAt(p, q) == (item, q + |ItemText(item)|)
  {
    hide Has, ClassText, SetOk, ClassEnd, SetAt;
    HasAt(p, q, ItemText(item), 0);
    HasAt(p, q, ItemText(item), 1);
    HasIn(p, q, ItemText(item));
    HasBoth(p, q, "%f", ClassText(item.set_));
    SetBack(p, q + 2, item.set_);
  }

  /** An item is read from its text. */
  lemma ItemBack(p: string, q: nat, item: Item)
    requires ItemOk(item) && Has(p, q, ItemText(item))
    requires NoSign(CharAt(p, q + |ItemText(item)|))
    requires item.Open? ==> CharAt(p, q + 1) != ')'
    requires item.AtEnd? ==> q + 1 == |p|
    ensures q < |p| && ItemAt(p, q) == (item, q + |ItemText(item)|)
  {
    hide ClassText, ClassOk, SetOk, ClassEnd, SetAt, ClassAt;
    if item.Single? {
      SingleBack(p, q, item);
    } else if item.Frontier? {
      FrontierBack(p, q, item);
    } else {
      HasAt(p, q, ItemText(item), 0);
      if |ItemText(item)| > 1 {
        HasAt(p, q, ItemText(item), 1);
      }
      if item.Balance? {
        HasAt(p, q, ItemText(item), 2);
        HasAt(p, q, ItemText(item), 3);
      }
    }
  }

  lemma ItemStart(item: Item)
    requires ItemOk(item)
    ensures ItemText(item) != [] && NoSign(ItemText(item)[0]) && (ItemText(item)[0] == ')' <==> item.Close?)
    ensures !item.Malformed? && (item.Open? || item.AtEnd? ==> |ItemText(item)| == 1)
  {
    hide SetOk, ElemsText;
  }

  /** The text of the items ends the pattern, or something comes after it that is not theirs. */
  predicate Apart(p: string, end: nat, items: seq<Item>) {
    end == |p| || (end < |p| && (p[end] == '%' || p[end] == '[') && (items != [] ==> !items[|items| - 1].AtEnd?))
  }

  lemma {:induction false} ItemsBack(p: string, q: nat, items: seq<Item>)
    requires Legible(items) && Has(p, q, PatternText(items)) && Apart(p, q + |PatternText(items)|, items)
    ensures Items(p, q) == items + Items(p, q + |PatternText(items)|)
    decreases |items|
  {
    hide Has, ItemText, ItemAt, ItemOk;
    if items != [] {
      var item, rest := items[0], items[1..];
      var next := q + |ItemText(item)|;
      HasBoth(p, q, ItemText(item), PatternText(rest));
      NextItem(p, next, rest);
      ItemStart(item);
      ItemBack(p, q, item);
      ItemsBack(p, next, rest);
      assert [item] + (rest + Items(p, next + |PatternText(rest)|)) == items + Items(p, next + |PatternText(rest)|);
    }
  }

  /** What comes after an item. */
  lemma NextItem(p: string, next: nat, rest: seq<Item>)
    requires Legible(rest) && Has(p, next, PatternText(rest)) && Apart(p, next + |PatternText(rest)|, rest)
    ensures NoSign(CharAt(p, next)) && (CharAt(p, next) == ')' ==> rest != [] && rest[0].Close?)
  {
    hide Has, ItemText, ItemOk;
    if rest != [] {
      ItemStart(rest[0]);
      assert PatternText(rest)[0] == ItemText(rest[0])[0];
      HasAt(p, next, PatternText(rest), 0);
    }
  }

  /** The pattern in which items are written is scanned as those items. */
  lemma ItemsWritten(items: seq<Item>)
    requires Legible(items)
    ensures Items(PatternText(items), 0) == items
  {
    hide Legible, PatternText;
    var p := PatternText(items);
    ItemsBack(p, 0, items);
    assert Items(p, |p|) == [];
    assert items + [] == items;
  }

  // ---------------------------------------------------------------- patterns that are not well formed

  /** A beginning of an item that is none: the pattern ends too early, or `%f` has no set. */
  predicate Broken(bad: string, error: Error) {
    match error
    case EndsWithPercent => bad == "%"
    case Unbalanced => |bad| <= 3 && "%b" <= bad
    case MissingAfterF => "%f" <= bad && (|bad| > 2 ==> bad[2] != '[')
    case MissingBracket => |bad| > 0 && bad[0] == '[' && ']' !in bad
    case _ => false
  }

  lemma {:induction false} NoEnd(p: string, q: nat)
    requires q <= |p| && ']' !in p[q..]
    ensures SetEnd(p, q) == Fail(MissingBracket)
    decreases |p| - q
  {
    if q < |p| {
      var next := if p[q] == ESC && q + 1 < |p| then q + 2 else q + 1;
      assert CharAt(p, next) != ']' by {
        if next < |p| {
          assert p[next] == p[q..][next - q];
        }
      }
      assert forall c :: c in p[next..] ==> c in p[q..] by {
        assert p[next..] == p[q..][next - q..];
      }
      NoEnd(p, next);
    }
  }

  lemma BrokenItem(p: string, q: nat, error: Error)
    requires q < |p| && Broken(p[q..], error)
    ensures ItemAt(p, q).0 == Malformed(error)
  {
    var bad := p[q..];
    assert bad[0] == p[q] && (|bad| > 1 ==> bad[1] == p[q + 1]) && (|bad| > 2 ==> bad[2] == p[q + 2]);
    if error.MissingBracket? {
      var start := SetStart(p, q);
      assert start <= |p|;
      assert forall c :: c in p[start..] ==> c in bad by {
        assert p[start..] == bad[start - q..];
      }
      NoEnd(p, start);
    }
    hide SetEnd;
  }

  /** After well-formed items, what begins an item and is none is scanned as the error it is. */
  lemma BrokenPattern(items: seq<Item>, bad: string, error: Error)
    requires Legible(items) && Broken(bad, error) && (items != [] ==> !items[|items| - 1].AtEnd?)
    ensures Items(PatternText(items) + bad, 0) == items + [Malformed(error)]
  {
    hide Legible, PatternText, ItemAt;
    var text := PatternText(items);
    var p := text + bad;
    assert p[|text|..] == bad && p[|text|] == bad[0];
    assert Has(p, 0, text);
    ItemsBack(p, 0, items);
    BrokenItem(p, |text|, error);
    assert Items(p, |text|) == [Malformed(error)];
  }

  /** So the written pattern matches what its items match. */
  lemma WrittenMatches(items: seq<Item>, src: string, s: nat)
    requires Legible(items) && s <= |src|
    ensures MatchAt(PatternText(items), src, s) == First(items, src, s, [])
  {
    hide First, Items, Legible, PatternText;
    ItemsWritten(items);
  }
}
