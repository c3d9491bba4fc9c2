/**
 What the rich-text simplification filter keeps, and the single pass it makes over a token
 stream, as functions. The imperative pass is in RichTextSimplifier, the theorems are in
 RichTextPruning and RichTextStability.
 */
module RichTextFilter {
  import opened TextBasics
  import opened XmlDocument

  /** Elements that are not discarded. */
  predicate FilterElement(name: string) {
    name != "meta" && name != "style"
  }

  predicate IsAlign(attribute: Attribute) {
    attribute.name.local == "align"
  }

  function OnlyAlign(attributes: seq<Attribute>): seq<Attribute> {
    if attributes == [] then []
    else if IsAlign(attributes[0]) then [attributes[0]] + OnlyAlign(attributes[1..])
    else OnlyAlign(attributes[1..])
  }

  function FilteredAttributes(name: string, attributes: seq<Attribute>): seq<Attribute> {
    if name == "body" then []
    else if name == "p" then OnlyAlign(attributes)
    else attributes
  }

  predicate HasAlign(attributes: seq<Attribute>) {
    exists i :: 0 <= i < |attributes| && IsAlign(attributes[i])
  }

  /** A paragraph that sets its alignment. */
  predicate AlignsParagraph(name: string, attributes: seq<Attribute>) {
    name == "p" && HasAlign(attributes)
  }

  /** Elements are written by local name only. */
  function Written(name: Name): Name {
    Name("", name.local)
  }

  function WrittenPath(open: seq<Name>): seq<Name> {
    seq(|open|, i requires 0 <= i < |open| => Written(open[i]))
  }

  /** How reading an element's text treats child elements. The filter uses the first one. */
  datatype ReadTextBehaviour = ErrorOnUnexpectedElement | SkipChildElements

  /**
   Reads past the text of the element `open[0]`, whose descendants in progress are `open[1..]`.
   Yields what follows its end tag, or None when the reader raises an error before that.
   */
  function AfterElementText(behaviour: ReadTextBehaviour, tokens: seq<Token>, open: seq<Name>)
    : (r: Option<seq<Token>>)
    requires open != []
    ensures r.Some? ==> |r.value| < |tokens|
    decreases |tokens|
  {
    if tokens == [] then None
    else if IsInline(tokens[0]) then AfterElementText(behaviour, tokens[1..], open)
    else match tokens[0]
      case StartElement(name, _) =>
        if behaviour == SkipChildElements
        then AfterElementText(behaviour, tokens[1..], open + [name]) else None
      case EndElement(name) =>
        if !Closes(open, name) then None
        else if |open| == 1 then Some(tokens[1..])
        else AfterElementText(behaviour, tokens[1..], Init(open))
      case _ => None
  }

  /** The pass between two tokens: what is written, which written elements are open, the counters. */
  datatype Progress = Progress(
    out: seq<Token>, open: seq<Name>, elementCount: nat, alignmentFound: bool)

  const START := Progress([], [], 0, false)

  function OnStart(p: Progress, name: Name, attributes: seq<Attribute>): Progress {
    Progress(
      p.out + [StartElement(Written(name), FilteredAttributes(name.local, attributes))],
      p.open + [name],
      (p.elementCount + 1) % UINT_MODULUS,
      p.alignmentFound || AlignsParagraph(name.local, attributes))
  }

  function OnDiscarded(p: Progress): Progress {
    p.(elementCount := (p.elementCount + 1) % UINT_MODULUS)
  }

  function OnCharacters(p: Progress, text: string): Progress {
    if IsBlank(text) then p else p.(out := p.out + [Characters(text)])
  }

  function OnEnd(p: Progress, name: Name): Progress
    requires Closes(p.open, name)
  {
    p.(out := p.out + [EndElement(Written(name))], open := Init(p.open))
  }

  /** One turn of the loop: what is left to read, and the progress made. */
  function Turn(behaviour: ReadTextBehaviour, tokens: seq<Token>, p: Progress)
    : (r: (seq<Token>, Progress))
    requires tokens != []
    ensures |r.0| < |tokens|
  {
    var rest := tokens[1..];
    match tokens[0]
    case StartElement(name, attributes) =>
      if FilterElement(name.local) then (rest, OnStart(p, name, attributes))
      else (
        match AfterElementText(behaviour, rest, [name])
        case None => ([], OnDiscarded(p))
        case Some(after) => (after, OnDiscarded(p))
      )
    case EndElement(name) => if Closes(p.open, name) then (rest, OnEnd(p, name)) else ([], p)
    case Characters(text) => (rest, OnCharacters(p, text))
    case Invalid => ([], p)
    case EndDocument => ([], p)
    case _ => (rest, p)
  }

  /** The rest of the pass: it stops at the end of the document and at the reader's first error. */
  function Simplify(behaviour: ReadTextBehaviour, tokens: seq<Token>, p: Progress): Progress
    decreases |tokens|
  {
    if tokens == [] then p
    else
      var (rest, next) := Turn(behaviour, tokens, p);
      Simplify(behaviour, rest, next)
  }

  /** The result of the whole pass over a stream. */
  function Simplified(tokens: seq<Token>): Progress {
    Simplify(ErrorOnUnexpectedElement, tokens, START)
  }

  /** The plain-text verdict: nothing but the four elements of the skeleton, none of them aligned. */
  predicate IsPlainText(p: Progress) {
    !p.alignmentFound && p.elementCount == 4
  }

  // ----- the same filter on the document tree -----

  /** The tree that should be left: the filter's rules applied node by node. */
  function Prune(f: Forest): Forest {
    match f
    case Nil => Nil
    case Element(name, attributes, children, next) =>
      if FilterElement(name.local) then
        Element(Written(name), FilteredAttributes(name.local, attributes), Prune(children), Prune(next))
      else Prune(next)
    case Leaf(token, next) =>
      if token.Characters? && !IsBlank(token.text) then Leaf(token, Prune(next)) else Prune(next)
  }

  predicate HasElements(f: Forest) {
    match f
    case Nil => false
    case Element(_, _, _, _) => true
    case Leaf(_, next) => HasElements(next)
  }

  /** No discarded element has a child element. */
  predicate DiscardsOnlyText(f: Forest) {
    match f
    case Nil => true
    case Element(name, _, children, next) =>
      && (if FilterElement(name.local) then DiscardsOnlyText(children) else !HasElements(children))
      && DiscardsOnlyText(next)
    case Leaf(_, next) => DiscardsOnlyText(next)
  }

  /** Start tags met outside discarded elements, their own tags included. */
  function ElementsMet(f: Forest): nat {
    match f
    case Nil => 0
    case Element(name, _, children, next) =>
      1 + (if FilterElement(name.local) then ElementsMet(children) else 0) + ElementsMet(next)
    case Leaf(_, next) => ElementsMet(next)
  }

  function ElementsDiscarded(f: Forest): nat {
    match f
    case Nil => 0
    case Element(name, _, children, next) =>
      (if FilterElement(name.local) then ElementsDiscarded(children) else 1) + ElementsDiscarded(next)
    case Leaf(_, next) => ElementsDiscarded(next)
  }

  predicate HasAlignedParagraph(f: Forest) {
    match f
    case Nil => false
    case Element(name, attributes, children, next) =>
      || (FilterElement(name.local)
          && (AlignsParagraph(name.local, attributes) || HasAlignedParagraph(children)))
      || HasAlignedParagraph(next)
    case Leaf(_, next) => HasAlignedParagraph(next)
  }
}
