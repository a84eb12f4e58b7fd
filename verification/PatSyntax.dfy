/**
  Patterns of the string library (lstrlib.c) as text and as lists of items.  Characters stand for
  bytes; a pattern ends at its first zero byte, as a C string does.
 */
module PatSyntax {

  import opened Wrappers

  const ESC := '%'

  datatype Error =
    InvalidCaptureIndex | InvalidPatternCapture | EndsWithPercent | MissingBracket | MissingAfterF | Unbalanced
    | TooManyCaptures | UnfinishedCapture

  /** One member of a set `[...]`. */
  datatype Elem = One(c: char) | Escaped(cl: char) | Range(lo: char, hi: char)

  datatype Class = Any | Literal(c: char) | Esc(cl: char) | Set(negated: bool, elems: seq<Elem>)

  datatype Repeat = Once | Optional | Greedy | GreedyPlus | Lazy

  datatype Item =
    | Open | OpenPosition | Close | Balance(b: char, e: char) | Frontier(set_: Class) | Back(digit: char) | AtEnd
    | Single(cls: Class, rep: Repeat) | Malformed(error: Error)

  /** A C string: reading at its end gives the zero byte. */
  function CharAt(s: string, i: int): char {
    if 0 <= i < |s| then s[i] else '\0'
  }

  predicate CString(s: string) {
    forall i :: 0 <= i < |s| ==> s[i] != '\0'
  }

  // ---------------------------------------------------------------- character classes

  predicate IsDigit(c: char) { '0' <= c <= '9' }

  predicate IsLower(c: char) { 'a' <= c <= 'z' }

  predicate IsUpper(c: char) { 'A' <= c <= 'Z' }

  predicate IsAlpha(c: char) { IsLower(c) || IsUpper(c) }

  predicate IsAlnum(c: char) { IsAlpha(c) || IsDigit(c) }

  predicate IsSpace(c: char) { c == ' ' || 9 <= c as int <= 13 }

  predicate IsCntrl(c: char) { c as int < 32 || c as int == 127 }

  predicate IsPunct(c: char) { 32 < c as int < 127 && !IsAlnum(c) }

  predicate IsXDigit(c: char) { IsDigit(c) || 'a' <= c <= 'f' || 'A' <= c <= 'F' }

  function ToLower(c: char): char {
    if IsUpper(c) then (c as int + 32) as char else c
  }

  /** match_class: a letter names a class, its capital the complement; any other character is itself */
  predicate MatchClass(c: char, cl: char) {
    var lower := ToLower(cl);
    if lower == 'a' then IsAlpha(c) == IsLower(cl)
    else if lower == 'c' then IsCntrl(c) == IsLower(cl)
    else if lower == 'd' then IsDigit(c) == IsLower(cl)
    else if lower == 'l' then IsLower(c) == IsLower(cl)
    else if lower == 'p' then IsPunct(c) == IsLower(cl)
    else if lower == 's' then IsSpace(c) == IsLower(cl)
    else if lower == 'u' then IsUpper(c) == IsLower(cl)
    else if lower == 'w' then IsAlnum(c) == IsLower(cl)
    else if lower == 'x' then IsXDigit(c) == IsLower(cl)
    else if lower == 'z' then (c == '\0') == IsLower(cl)
    else cl == c
  }

  predicate InElem(c: char, el: Elem) {
    match el
    case One(d) => c == d
    case Escaped(cl) => MatchClass(c, cl)
    case Range(lo, hi) => lo <= c <= hi
  }

  predicate InElems(c: char, els: seq<Elem>) {
    exists i :: 0 <= i < |els| && InElem(c, els[i])
  }

  predicate InClass(c: char, cls: Class) {
    match cls
    case Any => true
    case Literal(d) => c == d
    case Esc(cl) => MatchClass(c, cl)
    case Set(negated, elems) => InElems(c, elems) != negated
  }

  // ---------------------------------------------------------------- the items of a pattern

  /** Where the `]` that closes a set is looked for from `q` on; the character at `q` is never it. */
  function SetEnd(p: string, q: nat): (r: Result<nat, Error>)
    requires q <= |p|
    ensures r.Ok? ==> q < r.value < |p| && p[r.value] == ']'
    ensures r.Fail? ==> r.error == MissingBracket
    decreases |p| - q
  {
    if q == |p| then Fail(MissingBracket)
    else
      var next := if p[q] == ESC && q + 1 < |p| then q + 2 else q + 1;
      if CharAt(p, next) == ']' then Ok(next) else SetEnd(p, next)
  }

  function SetStart(p: string, q: nat): nat {
    if CharAt(p, q + 1) == '^' then q + 2 else q + 1
  }

  /** The position after a single-character class. */
  function ClassEnd(p: string, q: nat): (r: Result<nat, Error>)
    requires q < |p|
    ensures r.Ok? ==> q < r.value <= |p|
  {
    if p[q] == ESC then if q + 1 == |p| then Fail(EndsWithPercent) else Ok(q + 2)
    else if p[q] == '[' then
      var e := SetEnd(p, SetStart(p, q));
      if e.Fail? then Fail(e.error) else Ok(e.value + 1)
    else Ok(q + 1)
  }

  /** The members of a set between `q` and its closing bracket at `ec`. */
  function Elems(p: string, q: nat, ec: nat): seq<Elem>
    decreases ec - q
  {
    if q >= ec then []
    else if CharAt(p, q) == ESC then [Escaped(CharAt(p, q + 1))] + Elems(p, q + 2, ec)
    else if CharAt(p, q + 1) == '-' && q + 2 < ec then [Range(CharAt(p, q), CharAt(p, q + 2))] + Elems(p, q + 3, ec)
    else [One(CharAt(p, q))] + Elems(p, q + 1, ec)
  }

  /** The set `[...]` whose brackets stand at `q` and `ec`. */
  function SetAt(p: string, q: nat, ec: nat): Class {
    Set(CharAt(p, q + 1) == '^', Elems(p, SetStart(p, q), ec))
  }

  /** The class that ends before `ep`. */
  function ClassAt(p: string, q: nat, ep: nat): Class
    requires q < |p| && q < ep
  {
    if p[q] == '.' then Any
    else if p[q] == ESC then Esc(CharAt(p, q + 1))
    else if p[q] == '[' then SetAt(p, q, ep - 1)
    else Literal(p[q])
  }

  function RepeatAt(p: string, ep: nat): Repeat {
    var c := CharAt(p, ep);
    if c == '?' then Optional else if c == '*' then Greedy else if c == '+' then GreedyPlus
                                                                else if c == '-' then Lazy else Once
  }

  /** The item at a position, and where the next one starts. */
  function ItemAt(p: string, q: nat): (r: (Item, nat))
    requires q < |p|
    ensures q < r.1 <= |p| || r.0.Malformed?
  {
    if p[q] == '(' then
      if CharAt(p, q + 1) == ')' then (OpenPosition, q + 2) else (Open, q + 1)
    else if p[q] == ')' then (Close, q + 1)
    else if p[q] == ESC && CharAt(p, q + 1) == 'b' then
      if q + 3 < |p| then (Balance(p[q + 2], p[q + 3]), q + 4) else (Malformed(Unbalanced), q)
    else if p[q] == ESC && CharAt(p, q + 1) == 'f' then
      if CharAt(p, q + 2) != '[' then (Malformed(MissingAfterF), q)
      else
        var ep := ClassEnd(p, q + 2);
        if ep.Fail? then (Malformed(ep.error), q) else (Frontier(SetAt(p, q + 2, ep.value - 1)), ep.value)
    else if p[q] == ESC && IsDigit(CharAt(p, q + 1)) then (Back(p[q + 1]), q + 2)
    else if p[q] == '$' && q + 1 == |p| then (AtEnd, q + 1)
    else
      var ep := ClassEnd(p, q);
      if ep.Fail? then (Malformed(ep.error), q)
      else
        var rep := RepeatAt(p, ep.value);
        (Single(ClassAt(p, q, ep.value), rep), if rep == Once then ep.value else ep.value + 1)
  }

  /** A pattern from position `q` on; it stops at the first error, which is raised only if matching gets there. */
  function Items(p: string, q: nat): seq<Item>
    requires q <= |p|
    decreases |p| - q
  {
    if q == |p| then []
    else
      var (item, next) := ItemAt(p, q);
      if item.Malformed? then [item] else [item] + Items(p, next)
  }
}
