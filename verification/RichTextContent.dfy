/**
 What the filter loses and what it does not, told from the token stream alone: the names of the
 elements it drops, the attributes it drops, and the text.
 */
module RichTextContent {
  import opened TextBasics
  import opened XmlDocument
  import opened RichTextFilter
  import opened RichTextPruning
  import opened RichTextStability

  // ----- attributes -----

  /**
   Attribute by attribute: it stays unless the element is a body, or a paragraph and the attribute
   is not its alignment. `r` are the positions of those that stay.
   */
  lemma AttributesKept(name: string, attributes: seq<Attribute>) returns (r: seq<nat>)
    ensures forall j, k | 0 <= j < k < |r| :: r[j] < r[k] < |attributes|
    ensures forall i: nat | i < |attributes| ::
      i in r <==> name != "body" && (name == "p" ==> attributes[i].name.local == "align")
    ensures |FilteredAttributes(name, attributes)| == |r|
    ensures forall k | 0 <= k < |r| ::
      r[k] < |attributes| && FilteredAttributes(name, attributes)[k] == attributes[r[k]]
  {
    if name == "body" {
      r := [];
    } else if name == "p" {
      r := AlignPositions(attributes);
      AlignPositionsAreAll(attributes);
      OnlyAlignKeepsOrder(attributes);
    } else {
      r := seq(|attributes|, i => i);
      forall i: nat | i < |attributes|
        ensures i in r
      {
        assert r[i] == i;
      }
    }
  }

  // ----- elements and text -----

  /** None of the elements is a meta or style element. */
  predicate NoneHidden(open: seq<Name>) {
    forall i | 0 <= i < |open| :: open[i].local != "meta" && open[i].local != "style"
  }

  /** What is visible of a token: a tag by its local name, and text that is not blank. */
  function Shown(token: Token, open: seq<Name>): seq<Token> {
    match token
    case StartElement(name, attributes) =>
      if NoneHidden(open + [name])
      then [StartElement(Name("", name.local), FilteredAttributes(name.local, attributes))] else []
    case EndElement(name) => if NoneHidden(open) then [EndElement(Name("", name.local))] else []
    case Characters(text) => if NoneHidden(open) && HasInk(text) then [token] else []
    case _ => []
  }

  /** The document ends, or an end tag closes nothing, or a token cannot stand where it does. */
  predicate EndsHere(token: Token, open: seq<Name>) {
    || token.EndDocument? || token.Invalid?
    || (token.EndElement? && !Closes(open, token.name))
    || (!NoneHidden(open) && (token.NoToken? || token.StartDocument? || token.Dtd?))
  }

  function PathAfter(token: Token, open: seq<Name>): seq<Name>
    requires !EndsHere(token, open)
  {
    match token
    case StartElement(name, _) => open + [name]
    case EndElement(_) => Init(open)
    case _ => open
  }

  /** What of a stream stands outside all meta and style elements; `open` are the elements open so far. */
  function Visible(tokens: seq<Token>, open: seq<Name>): seq<Token>
    decreases |tokens|
  {
    if tokens == [] || EndsHere(tokens[0], open) then []
    else Shown(tokens[0], open) + Visible(tokens[1..], PathAfter(tokens[0], open))
  }

  predicate HasInk(text: string) {
    exists i :: 0 <= i < |text| && !IsSpace(text[i])
  }

  lemma PathWithinElement(outer: seq<Name>, inner: seq<Name>)
    requires inner != []
    ensures Last(outer + inner) == Last(inner)
    ensures Init(outer + inner) == outer + Init(inner)
    ensures !NoneHidden([inner[0]]) ==> !NoneHidden(outer + inner)
    ensures forall name: Name :: outer + (inner + [name]) == outer + inner + [name]
  {
    assert (outer + inner)[|outer|] == inner[0];
    forall name: Name
      ensures outer + (inner + [name]) == outer + inner + [name]
    {
    }
  }

  /** Reading past a meta or style element, children and all, passes nothing visible. */
  lemma {:induction false} ElementTextIsHidden(tokens: seq<Token>, outer: seq<Name>, inner: seq<Name>)
    requires inner != [] && !NoneHidden([inner[0]])
    ensures var after := AfterElementText(SkipChildElements, tokens, inner);
      Visible(tokens, outer + inner) == if after.None? then [] else Visible(after.value, outer)
    decreases |tokens|
  {
    PathWithinElement(outer, inner);
    if tokens != [] {
      var token, rest := tokens[0], tokens[1..];
      if IsInline(token) {
        ElementTextIsHidden(rest, outer, inner);
      } else if token.StartElement? {
        PathWithinElement(outer, inner + [token.name]);
        ElementTextIsHidden(rest, outer, inner + [token.name]);
      } else if token.EndElement? && Closes(inner, token.name) {
        if |inner| > 1 {
          ElementTextIsHidden(rest, outer, Init(inner));
        } else {
          assert outer + Init(inner) == outer;
        }
      }
    }
  }

  lemma PathGrows(open: seq<Name>, name: Name)
    requires NoneHidden(open)
    ensures NoneHidden(open + [name]) <==> name.local != "meta" && name.local != "style"
    ensures NoneHidden(open + [name]) <==> NoneHidden([name])
  {
    assert (open + [name])[|open|] == name && [name][0] == name;
  }

  lemma TurnShows(tokens: seq<Token>, p: Progress)
    requires tokens != [] && NoneHidden(p.open) && !EndsHere(tokens[0], p.open)
    requires tokens[0].StartElement? ==> NoneHidden(p.open + [tokens[0].name])
    ensures var (rest, next) := Turn(SkipChildElements, tokens, p);
      && rest == tokens[1..] && next.out == p.out + Shown(tokens[0], p.open)
      && next.open == PathAfter(tokens[0], p.open) && NoneHidden(next.open)
  {
    if tokens[0].StartElement? {
      PathGrows(p.open, tokens[0].name);
    }
  }

  lemma TurnHides(tokens: seq<Token>, p: Progress)
    requires tokens != [] && NoneHidden(p.open)
    requires tokens[0].StartElement? && !NoneHidden(p.open + [tokens[0].name])
    ensures var (rest, next) := Turn(SkipChildElements, tokens, p);
      && next.out == p.out && next.open == p.open
      && Visible(rest, p.open) == Visible(tokens, p.open)
  {
    var name := tokens[0].name;
    PathGrows(p.open, name);
    ElementTextIsHidden(tokens[1..], p.open, [name]);
    assert [] + Visible(tokens[1..], p.open + [name]) == Visible(tokens[1..], p.open + [name]);
  }

  lemma TurnEnds(tokens: seq<Token>, p: Progress)
    requires tokens != [] && NoneHidden(p.open) && EndsHere(tokens[0], p.open)
    ensures Turn(SkipChildElements, tokens, p) == ([], p) && Visible(tokens, p.open) == []
  {
  }

  lemma TurnWritesVisible(tokens: seq<Token>, p: Progress)
    requires tokens != [] && NoneHidden(p.open)
    ensures var (rest, next) := Turn(SkipChildElements, tokens, p);
      NoneHidden(next.open) && next.out + Visible(rest, next.open) == p.out + Visible(tokens, p.open)
  {
    if EndsHere(tokens[0], p.open) {
      TurnEnds(tokens, p);
    } else if tokens[0].StartElement? && !NoneHidden(p.open + [tokens[0].name]) {
      TurnHides(tokens, p);
    } else {
      TurnShows(tokens, p);
      InTwoSteps(p.out, Shown(tokens[0], p.open), Visible(tokens[1..], PathAfter(tokens[0], p.open)));
    }
  }

  lemma InTwoSteps(out: seq<Token>, first: seq<Token>, later: seq<Token>)
    ensures out + first + later == out + (first + later)
  {
  }

  /** On every stream: a pass that skipped child elements would write exactly what is visible. */
  lemma {:induction false} SkippingWritesVisible(tokens: seq<Token>, p: Progress)
    requires NoneHidden(p.open)
    ensures Simplify(SkipChildElements, tokens, p).out == p.out + Visible(tokens, p.open)
    decreases |tokens|
  {
    if tokens != [] {
      TurnWritesVisible(tokens, p);
      var (rest, next) := Turn(SkipChildElements, tokens, p);
      SkippingWritesVisible(rest, next);
    }
  }

  /** No start tag stands within a meta or style element. */
  predicate HiddenHoldNoElement(tokens: seq<Token>, open: seq<Name>)
    decreases |tokens|
  {
    || tokens == [] || EndsHere(tokens[0], open)
    || ((tokens[0].StartElement? ==> NoneHidden(open))
        && HiddenHoldNoElement(tokens[1..], PathAfter(tokens[0], open)))
  }

  lemma {:induction false} TextOnlyIsPassed(tokens: seq<Token>, outer: seq<Name>, name: Name)
    requires !NoneHidden([name]) && HiddenHoldNoElement(tokens, outer + [name])
    ensures var after := AfterElementText(ErrorOnUnexpectedElement, tokens, [name]);
      && AfterElementText(SkipChildElements, tokens, [name]) == after
      && (after.Some? ==> HiddenHoldNoElement(after.value, outer))
    decreases |tokens|
  {
    PathWithinElement(outer, [name]);
    if tokens != [] {
      if IsInline(tokens[0]) {
        TextOnlyIsPassed(tokens[1..], outer, name);
      } else {
        assert outer + Init([name]) == outer;
      }
    }
  }

  /** So what is visible is written, if no element stands within a meta or style element. */
  lemma {:induction false} VisibleIsWritten(tokens: seq<Token>, p: Progress)
    requires NoneHidden(p.open) && HiddenHoldNoElement(tokens, p.open)
    ensures Simplify(ErrorOnUnexpectedElement, tokens, p) == Simplify(SkipChildElements, tokens, p)
    decreases |tokens|
  {
    if tokens != [] {
      var (rest, next) := Turn(ErrorOnUnexpectedElement, tokens, p);
      match tokens[0]
      case StartElement(name, _) =>
        PathGrows(p.open, name);
        if !NoneHidden([name]) {
          TextOnlyIsPassed(tokens[1..], p.open, name);
        }
        VisibleIsWritten(rest, next);
      case _ => VisibleIsWritten(rest, next);
    }
  }

  /**
   On every stream: nothing is written but what stands outside all meta and style elements, in its
   order, from the start on; and all of it, if no element stands within one of those.
   */
  lemma OutputIsVisible(tokens: seq<Token>)
    ensures Simplified(tokens).out <= Visible(tokens, [])
    ensures HiddenHoldNoElement(tokens, []) ==> Simplified(tokens).out == Visible(tokens, [])
  {
    SkippingWritesVisible(tokens, START);
    assert [] + Visible(tokens, []) == Visible(tokens, []);
    StoppingEarlyCutsOutputShort(tokens, START);
    if HiddenHoldNoElement(tokens, []) {
      VisibleIsWritten(tokens, START);
    }
  }

  // ----- documents without meta and style elements -----

  predicate HasNoHidden(tokens: seq<Token>) {
    forall i | 0 <= i < |tokens| && tokens[i].StartElement? ::
      tokens[i].name.local != "meta" && tokens[i].name.local != "style"
  }

  /** The local names of the elements, in the order of their start tags. */
  function ElementNames(tokens: seq<Token>): seq<string> {
    if tokens == [] then []
    else (if tokens[0].StartElement? then [tokens[0].name.local] else []) + ElementNames(tokens[1..])
  }

  /** The runs of text that are not blank, in order. */
  function Texts(tokens: seq<Token>): seq<string> {
    if tokens == [] then []
    else
      (if tokens[0].Characters? && HasInk(tokens[0].text) then [tokens[0].text] else [])
      + Texts(tokens[1..])
  }

  lemma FirstAndRest(token: Token, rest: seq<Token>)
    ensures ElementNames([token] + rest)
         == (if token.StartElement? then [token.name.local] else []) + ElementNames(rest)
    ensures Texts([token] + rest)
         == (if token.Characters? && HasInk(token.text) then [token.text] else []) + Texts(rest)
  {
    assert ([token] + rest)[1..] == rest;
  }

  lemma ShownKeeps(token: Token, open: seq<Name>, later: seq<Token>)
    requires NoneHidden(open) && HasNoHidden([token])
    ensures ElementNames(Shown(token, open) + later) == ElementNames([token]) + ElementNames(later)
    ensures Texts(Shown(token, open) + later) == Texts([token]) + Texts(later)
  {
    FirstAndRest(token, []);
    assert [token] + [] == [token] && [token][0] == token;
    var shown := Shown(token, open);
    if token.StartElement? {
      PathGrows(open, token.name);
      assert shown != [];
    }
    if shown == [] {
      assert [] + later == later;
    } else {
      assert shown == [shown[0]];
      FirstAndRest(shown[0], later);
    }
  }

  lemma {:induction false} VisibleKeepsAll(tokens: seq<Token>, open: seq<Name>)
    requires HasNoHidden(tokens) && NoneHidden(open) && OpenPath(tokens, open).Some?
    ensures var seen := Visible(tokens + [EndDocument], open);
      ElementNames(seen) == ElementNames(tokens) && Texts(seen) == Texts(tokens)
    ensures HiddenHoldNoElement(tokens + [EndDocument], open)
    decreases |tokens|
  {
    if tokens == [] {
      assert [] + [EndDocument] == [EndDocument];
    } else {
      var token, rest := tokens[0], tokens[1..];
      assert tokens == [token] + rest && tokens + [EndDocument] == [token] + (rest + [EndDocument]);
      if token.StartElement? {
        PathGrows(open, token.name);
      }
      var after := PathAfter(token, open);
      assert OpenPath(rest, after) == OpenPath(tokens, open);
      VisibleKeepsAll(rest, after);
      ShownKeeps(token, open, Visible(rest + [EndDocument], after));
      ShownIsFirst(token, rest + [EndDocument], open);
      FirstAndRest(token, rest);
      FirstAndRest(token, []);
      assert [token] + [] == [token];
    }
  }

  lemma ShownIsFirst(token: Token, rest: seq<Token>, open: seq<Name>)
    requires !EndsHere(token, open)
    ensures Visible([token] + rest, open) == Shown(token, open) + Visible(rest, PathAfter(token, open))
    ensures HiddenHoldNoElement([token] + rest, open)
       <==> (token.StartElement? ==> NoneHidden(open)) && HiddenHoldNoElement(rest, PathAfter(token, open))
  {
    assert ([token] + rest)[1..] == rest;
  }

  /**
   A document without meta and style elements keeps all its elements, by local name and in order,
   and all its text but what is blank.
   */
  lemma NothingElseIsLost(content: seq<Token>)
    requires WellNested(content) && HasNoHidden(content)
    ensures var out := Simplified(Document(content)).out;
      ElementNames(out) == ElementNames(content) && Texts(out) == Texts(content)
  {
    var text := Document(content);
    assert text == [StartDocument] + (content + [EndDocument]);
    VisibleKeepsAll(content, []);
    ShownIsFirst(StartDocument, content + [EndDocument], []);
    assert [] + Visible(content + [EndDocument], []) == Visible(content + [EndDocument], []);
    OutputIsVisible(text);
  }
}
