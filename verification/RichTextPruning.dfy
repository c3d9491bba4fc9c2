/**
 The single pass against the document tree: what it writes is the flattened, pruned tree, exactly
 when it does not stop early; and stopping early only ever cuts the output short.
 */
module RichTextPruning {
  import opened TextBasics
  import opened XmlDocument
  import opened RichTextFilter

  /** The progress after a whole forest: its pruned form is written, the open elements are as before. */
  function AfterForest(p: Progress, f: Forest): Progress {
    Progress(
      p.out + Flatten(Prune(f)), p.open,
      (p.elementCount + ElementsMet(f)) % UINT_MODULUS,
      p.alignmentFound || HasAlignedParagraph(f))
  }

  // ----- reading past discarded elements -----

  lemma {:induction false} ElementTextPassesForest(
    behaviour: ReadTextBehaviour, f: Forest, rest: seq<Token>, open: seq<Name>)
    requires ValidForest(f, false) && open != []
    requires behaviour == SkipChildElements || !HasElements(f)
    ensures AfterElementText(behaviour, Flatten(f) + rest, open) == AfterElementText(behaviour, rest, open)
  {
    var tokens := Flatten(f) + rest;
    match f
    case Nil =>
      assert tokens == rest;
    case Leaf(token, next) =>
      assert tokens == [token] + (Flatten(next) + rest);
      ElementTextPassesForest(behaviour, next, rest, open);
    case Element(name, attributes, children, next) =>
      var after := [EndElement(name)] + (Flatten(next) + rest);
      assert tokens == [StartElement(name, attributes)] + (Flatten(children) + after);
      ElementTextPassesForest(behaviour, children, after, open + [name]);
      assert after[1..] == Flatten(next) + rest && Init(open + [name]) == open;
      ElementTextPassesForest(behaviour, next, rest, open);
  }

  lemma {:induction false} ElementTextFailsAtChild(f: Forest, rest: seq<Token>, open: seq<Name>)
    requires ValidForest(f, false) && open != [] && HasElements(f)
    ensures AfterElementText(ErrorOnUnexpectedElement, Flatten(f) + rest, open) == None
  {
    match f
    case Element(name, attributes, children, next) =>
      assert (Flatten(f) + rest)[0] == StartElement(name, attributes);
    case Leaf(token, next) =>
      assert Flatten(f) + rest == [token] + (Flatten(next) + rest);
      ElementTextFailsAtChild(next, rest, open);
  }

  // ----- the pass over a forest -----

  lemma SimplifyStarts(behaviour: ReadTextBehaviour, token: Token, rest: seq<Token>, p: Progress)
    ensures var (after, next) := Turn(behaviour, [token] + rest, p);
            Simplify(behaviour, [token] + rest, p) == Simplify(behaviour, after, next)
    ensures ([token] + rest)[1..] == rest
  {
  }

  lemma AfterLeaf(p: Progress, f: Forest)
    requires f.Leaf? && p.elementCount < UINT_MODULUS
    ensures AfterForest(if f.token.Characters? then OnCharacters(p, f.token.text) else p, f.next)
         == AfterForest(p, f)
  {
  }

  lemma AfterDiscardedElement(p: Progress, f: Forest)
    requires f.Element? && !FilterElement(f.name.local) && p.elementCount < UINT_MODULUS
    ensures AfterForest(OnDiscarded(p), f.next) == AfterForest(p, f)
  {
  }

  /** The counter wraps around like the program's unsigned one; adding in steps makes no difference. */
  lemma CountInSteps(count: nat, inside: nat, after: nat)
    ensures (((count + 1) % UINT_MODULUS + inside) % UINT_MODULUS + after) % UINT_MODULUS
         == (count + (1 + inside + after)) % UINT_MODULUS
  {
  }

  lemma OutputInSteps(out: seq<Token>, start: Token, inside: seq<Token>, end: Token, after: seq<Token>)
    ensures out + [start] + inside + [end] + after == out + ([start] + inside + [end] + after)
  {
  }

  lemma AfterKeptElement(p: Progress, f: Forest)
    requires f.Element? && FilterElement(f.name.local) && p.elementCount < UINT_MODULUS
    ensures var atEnd := AfterForest(OnStart(p, f.name, f.attributes), f.children);
      && Closes(atEnd.open, f.name)
      && AfterForest(OnEnd(atEnd, f.name), f.next) == AfterForest(p, f)
  {
    var start := StartElement(Written(f.name), FilteredAttributes(f.name.local, f.attributes));
    var inside, end, after := Flatten(Prune(f.children)), EndElement(Written(f.name)), Flatten(Prune(f.next));
    assert Flatten(Prune(f)) == [start] + inside + [end] + after;
    OutputInSteps(p.out, start, inside, end, after);
    CountInSteps(p.elementCount, ElementsMet(f.children), ElementsMet(f.next));
    assert Init(p.open + [f.name]) == p.open;
  }

  lemma {:induction false} PassOverForest(
    behaviour: ReadTextBehaviour, f: Forest, top: bool, rest: seq<Token>, p: Progress)
    requires ValidForest(f, top) && p.elementCount < UINT_MODULUS
    requires behaviour == SkipChildElements || DiscardsOnlyText(f)
    ensures Simplify(behaviour, Flatten(f) + rest, p) == Simplify(behaviour, rest, AfterForest(p, f))
    decreases f, 1
  {
    match f
    case Nil =>
      assert Flatten(f) + rest == rest && AfterForest(p, f) == p;
    case Leaf(token, next) =>
      assert Flatten(f) + rest == [token] + (Flatten(next) + rest);
      SimplifyStarts(behaviour, token, Flatten(next) + rest, p);
      var q := if token.Characters? then OnCharacters(p, token.text) else p;
      PassOverForest(behaviour, next, top, rest, q);
      AfterLeaf(p, f);
    case Element(name, attributes, children, next) =>
      var after := [EndElement(name)] + (Flatten(next) + rest);
      assert Flatten(f) + rest == [StartElement(name, attributes)] + (Flatten(children) + after);
      SimplifyStarts(behaviour, StartElement(name, attributes), Flatten(children) + after, p);
      if FilterElement(name.local) {
        PassOverElement(behaviour, f, top, rest, p);
      } else {
        ElementTextPassesForest(behaviour, children, after, [name]);
        assert after[1..] == Flatten(next) + rest;
        PassOverForest(behaviour, next, top, rest, OnDiscarded(p));
        AfterDiscardedElement(p, f);
      }
  }

  lemma {:induction false} PassOverElement(
    behaviour: ReadTextBehaviour, f: Forest, top: bool, rest: seq<Token>, p: Progress)
    requires ValidForest(f, top) && f.Element? && FilterElement(f.name.local)
    requires p.elementCount < UINT_MODULUS
    requires behaviour == SkipChildElements || DiscardsOnlyText(f)
    ensures Simplify(behaviour, Flatten(f.children) + ([EndElement(f.name)] + (Flatten(f.next) + rest)),
                     OnStart(p, f.name, f.attributes))
         == Simplify(behaviour, rest, AfterForest(p, f))
    decreases f, 0
  {
    var inside := OnStart(p, f.name, f.attributes);
    PassOverForest(behaviour, f.children, false, [EndElement(f.name)] + (Flatten(f.next) + rest), inside);
    var atEnd := AfterForest(inside, f.children);
    SimplifyStarts(behaviour, EndElement(f.name), Flatten(f.next) + rest, atEnd);
    var closed := OnEnd(atEnd, f.name);
    assert closed.open == p.open;
    PassOverForest(behaviour, f.next, top, rest, closed);
    AfterKeptElement(p, f);
  }

  /**
   The pass over a well-nested document whose discarded elements hold only text: it writes the
   flattened pruned tree, closes everything it opened, and has counted what the tree says.
   */
  lemma SimplifiedIsPruned(content: seq<Token>)
    requires WellNested(content) && DiscardsOnlyText(Tree(content))
    ensures Simplified(Document(content)) == AfterForest(START, Tree(content))
  {
    var f := Tree(content);
    WellNestedIsFlattenedTree(content);
    assert Document(content) == [StartDocument] + (content + [EndDocument]);
    SimplifyStarts(ErrorOnUnexpectedElement, StartDocument, content + [EndDocument], START);
    PassOverForest(ErrorOnUnexpectedElement, f, true, [EndDocument], START);
  }

  // ----- stopping early -----

  /** The pass only ever adds to what it has written. */
  lemma {:induction false} OutputOnlyGrows(behaviour: ReadTextBehaviour, tokens: seq<Token>, p: Progress)
    ensures p.out <= Simplify(behaviour, tokens, p).out
    decreases |tokens|
  {
    if tokens != [] {
      var (rest, next) := Turn(behaviour, tokens, p);
      OutputOnlyGrows(behaviour, rest, next);
    }
  }

  lemma {:induction false} ElementTextAgrees(tokens: seq<Token>, name: Name)
    requires AfterElementText(ErrorOnUnexpectedElement, tokens, [name]).Some?
    ensures AfterElementText(SkipChildElements, tokens, [name])
         == AfterElementText(ErrorOnUnexpectedElement, tokens, [name])
    decreases |tokens|
  {
    if IsInline(tokens[0]) {
      ElementTextAgrees(tokens[1..], name);
    }
  }

  /**
   On every stream, well-formed or not: stopping at a child element of a discarded element leaves
   a prefix of what skipping that child would have written.
   */
  lemma {:induction false} StoppingEarlyCutsOutputShort(tokens: seq<Token>, p: Progress)
    ensures Simplify(ErrorOnUnexpectedElement, tokens, p).out <= Simplify(SkipChildElements, tokens, p).out
    decreases |tokens|
  {
    if tokens == [] {
      return;
    }
    var (rest, next) := Turn(ErrorOnUnexpectedElement, tokens, p);
    if tokens[0].StartElement? && !FilterElement(tokens[0].name.local) {
      if AfterElementText(ErrorOnUnexpectedElement, tokens[1..], [tokens[0].name]).None? {
        assert Simplify(ErrorOnUnexpectedElement, rest, next).out == p.out;
        OutputOnlyGrows(SkipChildElements, tokens, p);
        return;
      }
      ElementTextAgrees(tokens[1..], tokens[0].name);
    }
    StoppingEarlyCutsOutputShort(rest, next);
  }

  lemma {:induction false} ElementTextReadsOn(
    behaviour: ReadTextBehaviour, tokens: seq<Token>, more: seq<Token>, open: seq<Name>)
    requires open != [] && AfterElementText(behaviour, tokens, open).Some?
    ensures AfterElementText(behaviour, tokens + more, open)
         == Some(AfterElementText(behaviour, tokens, open).value + more)
    decreases |tokens|
  {
    assert (tokens + more)[1..] == tokens[1..] + more;
    if IsInline(tokens[0]) {
      ElementTextReadsOn(behaviour, tokens[1..], more, open);
    } else if tokens[0].StartElement? {
      ElementTextReadsOn(behaviour, tokens[1..], more, open + [tokens[0].name]);
    } else if |open| > 1 {
      ElementTextReadsOn(behaviour, tokens[1..], more, Init(open));
    }
  }

  /** A text that breaks off leaves a prefix of what the whole text would have left. */
  lemma {:induction false} BrokenOffTextLeavesPrefix(
    behaviour: ReadTextBehaviour, tokens: seq<Token>, more: seq<Token>, p: Progress)
    ensures Simplify(behaviour, tokens, p).out <= Simplify(behaviour, tokens + more, p).out
    decreases |tokens|
  {
    if tokens == [] {
      OutputOnlyGrows(behaviour, tokens + more, p);
      return;
    }
    assert (tokens + more)[1..] == tokens[1..] + more;
    var (rest, next) := Turn(behaviour, tokens, p);
    if tokens[0].StartElement? && !FilterElement(tokens[0].name.local) {
      if AfterElementText(behaviour, tokens[1..], [tokens[0].name]).None? {
        OutputOnlyGrows(behaviour, tokens + more, p);
        return;
      }
      ElementTextReadsOn(behaviour, tokens[1..], more, [tokens[0].name]);
    }
    if Turn(behaviour, tokens + more, p) == (rest + more, next) {
      BrokenOffTextLeavesPrefix(behaviour, rest, more, next);
    }
  }

  /** A pass that meets a child of a discarded element never gets beyond the forest it stands in. */
  lemma {:induction false} PassStopsInForest(f: Forest, top: bool, rest: seq<Token>, p: Progress)
    requires ValidForest(f, top) && !DiscardsOnlyText(f) && p.elementCount < UINT_MODULUS
    ensures Simplify(ErrorOnUnexpectedElement, Flatten(f) + rest, p)
         == Simplify(ErrorOnUnexpectedElement, Flatten(f), p)
    decreases f, 1
  {
    match f
    case Leaf(token, next) =>
      assert Flatten(f) + rest == [token] + (Flatten(next) + rest);
      SimplifyStarts(ErrorOnUnexpectedElement, token, Flatten(next) + rest, p);
      SimplifyStarts(ErrorOnUnexpectedElement, token, Flatten(next), p);
      PassStopsInForest(next, top, rest, if token.Characters? then OnCharacters(p, token.text) else p);
    case Element(name, attributes, children, next) =>
      if FilterElement(name.local) {
        PassStopsInElement(f, top, rest, p);
        PassStopsInElement(f, top, [], p);
        assert Flatten(f) + [] == Flatten(f);
      } else {
        var start, after := StartElement(name, attributes), [EndElement(name)] + Flatten(next);
        assert Flatten(f) == [start] + (Flatten(children) + after);
        assert Flatten(f) + rest == [start] + (Flatten(children) + (after + rest));
        SimplifyStarts(ErrorOnUnexpectedElement, start, Flatten(children) + after, p);
        SimplifyStarts(ErrorOnUnexpectedElement, start, Flatten(children) + (after + rest), p);
        if HasElements(children) {
          ElementTextFailsAtChild(children, after, [name]);
          ElementTextFailsAtChild(children, after + rest, [name]);
        } else {
          ElementTextPassesForest(ErrorOnUnexpectedElement, children, after, [name]);
          ElementTextPassesForest(ErrorOnUnexpectedElement, children, after + rest, [name]);
          assert after[1..] == Flatten(next) && (after + rest)[1..] == Flatten(next) + rest;
          PassStopsInForest(next, top, rest, OnDiscarded(p));
        }
      }
  }

  /** The same for an element that is kept, where the pass stops in its children or behind it. */
  lemma {:induction false} PassStopsInElement(f: Forest, top: bool, rest: seq<Token>, p: Progress)
    requires ValidForest(f, top) && f.Element? && FilterElement(f.name.local)
    requires !DiscardsOnlyText(f) && p.elementCount < UINT_MODULUS
    ensures Simplify(ErrorOnUnexpectedElement, Flatten(f) + rest, p)
         == (var inside := OnStart(p, f.name, f.attributes);
             if DiscardsOnlyText(f.children) then
               Simplify(ErrorOnUnexpectedElement, Flatten(f.next),
                        OnEnd(AfterForest(inside, f.children), f.name))
             else Simplify(ErrorOnUnexpectedElement, Flatten(f.children), inside))
    decreases f, 0
  {
    var inside := OnStart(p, f.name, f.attributes);
    var start, behind := StartElement(f.name, f.attributes), Flatten(f.next) + rest;
    var after := [EndElement(f.name)] + behind;
    assert Flatten(f) + rest == [start] + (Flatten(f.children) + after);
    SimplifyStarts(ErrorOnUnexpectedElement, start, Flatten(f.children) + after, p);
    if DiscardsOnlyText(f.children) {
      PassOverForest(ErrorOnUnexpectedElement, f.children, false, after, inside);
      var atEnd := AfterForest(inside, f.children);
      SimplifyStarts(ErrorOnUnexpectedElement, EndElement(f.name), behind, atEnd);
      PassStopsInForest(f.next, top, rest, OnEnd(atEnd, f.name));
    } else {
      PassStopsInForest(f.children, false, after, inside);
    }
  }

  // ----- exactly when a document comes out pruned -----

  predicate IsIgnorable(f: Forest) {
    match f
    case Nil => true
    case Element(_, _, _, _) => false
    case Leaf(token, next) => (token.Characters? ==> IsBlank(token.text)) && IsIgnorable(next)
  }

  /** One root element, and nothing that is written before or after it. */
  predicate IsDocument(f: Forest) {
    match f
    case Nil => false
    case Element(_, _, _, next) => IsIgnorable(next)
    case Leaf(token, next) => (token.Characters? ==> IsBlank(token.text)) && IsDocument(next)
  }

  function RootName(f: Forest): Name
    requires IsDocument(f)
  {
    match f
    case Element(name, _, _, _) => name
    case Leaf(_, next) => RootName(next)
  }

  lemma {:induction false} IgnorableLeavesNothing(f: Forest)
    requires IsIgnorable(f)
    ensures Prune(f) == Nil && DiscardsOnlyText(f)
  {
    if f.Leaf? {
      IgnorableLeavesNothing(f.next);
    }
  }

  /** A document that makes the pass stop early: nothing is written iff its root is discarded. */
  lemma {:induction false} DocumentStopsEarly(f: Forest, rest: seq<Token>, p: Progress)
    requires IsDocument(f) && ValidForest(f, true) && !DiscardsOnlyText(f) && p.elementCount < UINT_MODULUS
    ensures Simplify(ErrorOnUnexpectedElement, Flatten(f) + rest, p).out == p.out + Flatten(Prune(f))
       <==> !FilterElement(RootName(f).local)
  {
    match f
    case Leaf(token, next) =>
      assert Flatten(f) + rest == [token] + (Flatten(next) + rest);
      SimplifyStarts(ErrorOnUnexpectedElement, token, Flatten(next) + rest, p);
      DocumentStopsEarly(next, rest, p);
    case Element(name, attributes, children, next) =>
      IgnorableLeavesNothing(next);
      if FilterElement(name.local) {
        var inside := OnStart(p, name, attributes);
        PassStopsInElement(f, true, rest, p);
        StoppingEarlyCutsOutputShort(Flatten(children), inside);
        assert Flatten(children) + [] == Flatten(children);
        PassOverForest(SkipChildElements, children, false, [], inside);
        assert |AfterForest(inside, children).out| < |p.out + Flatten(Prune(f))|;
      } else {
        var after := [EndElement(name)] + (Flatten(next) + rest);
        assert Flatten(f) + rest == [StartElement(name, attributes)] + (Flatten(children) + after);
        SimplifyStarts(ErrorOnUnexpectedElement, StartElement(name, attributes), Flatten(children) + after, p);
        ElementTextFailsAtChild(children, after, [name]);
      }
  }

  /**
   A document comes out pruned if and only if no discarded element has a child element, or the
   root itself is discarded.
   */
  lemma DocumentPrunedIff(content: seq<Token>)
    requires WellNested(content) && IsDocument(Tree(content))
    ensures Simplified(Document(content)).out == Flatten(Prune(Tree(content)))
       <==> DiscardsOnlyText(Tree(content)) || !FilterElement(RootName(Tree(content)).local)
  {
    var f := Tree(content);
    WellNestedIsFlattenedTree(content);
    if DiscardsOnlyText(f) {
      SimplifiedIsPruned(content);
    } else {
      assert Document(content) == [StartDocument] + (content + [EndDocument]);
      SimplifyStarts(ErrorOnUnexpectedElement, StartDocument, content + [EndDocument], START);
      DocumentStopsEarly(f, [EndDocument], START);
    }
  }

  /** Skipping child elements would have pruned every well-nested document. */
  lemma SkippingAlwaysPrunes(content: seq<Token>)
    requires WellNested(content)
    ensures Simplify(SkipChildElements, Document(content), START).out == Flatten(Prune(Tree(content)))
    ensures Simplified(Document(content)).out <= Flatten(Prune(Tree(content)))
  {
    var f := Tree(content);
    WellNestedIsFlattenedTree(content);
    assert Document(content) == [StartDocument] + (content + [EndDocument]);
    SimplifyStarts(SkipChildElements, StartDocument, content + [EndDocument], START);
    PassOverForest(SkipChildElements, f, true, [EndDocument], START);
    StoppingEarlyCutsOutputShort(Document(content), START);
  }

  /** In a kept element, a discarded one with a child costs at least the end tag of the former. */
  lemma ChildOfDiscardedCutsOutputShort(kept: Name, discarded: Name, child: Name)
    requires FilterElement(kept.local) && !FilterElement(discarded.local)
    ensures var content := Flatten(Element(kept, [], Element(discarded, [], Element(child, [], Nil, Nil), Nil), Nil));
      && WellNested(content) && IsDocument(Tree(content))
      && Simplified(Document(content)).out != Flatten(Prune(Tree(content)))
  {
    var inner := Element(child, [], Nil, Nil);
    var style := Element(discarded, [], inner, Nil);
    var f := Element(kept, [], style, Nil);
    assert ValidForest(inner, false) && ValidForest(style, false);
    FlattenKeepsPath(f, []);
    TreeOfFlattened(f);
    assert HasElements(style.children) && !DiscardsOnlyText(style);
    DocumentPrunedIff(Flatten(f));
  }
}
