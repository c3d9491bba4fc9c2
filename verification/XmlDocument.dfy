/**
 The reader's view of a rich-text document: a stream of tokens, the open-element path that
 XML 1.0, section 3 (Element Type Match) requires end tags to follow, and the document tree
 that a well-formed stream flattens.
 */
module XmlDocument {

  datatype Option<+T> = None | Some(value: T)

  /** An expanded name: namespace and local part. The simplifier only ever looks at `local`. */
  datatype Name = Name(uri: string, local: string)

  datatype Attribute = Attribute(name: Name, value: string)

  datatype Token =
    | NoToken
    | Invalid
    | StartDocument
    | EndDocument
    | StartElement(name: Name, attributes: seq<Attribute>)
    | EndElement(name: Name)
    | Characters(text: string)
    | Comment(text: string)
    | Dtd(text: string)
    | EntityReference(text: string)
    | ProcessingInstruction(text: string)

  /** True of the tokens that stand inside an element without opening or closing one. */
  predicate IsInline(token: Token) {
    token.Characters? || token.Comment? || token.EntityReference? || token.ProcessingInstruction?
  }

  function Init<T>(s: seq<T>): seq<T>
    requires s != []
  {
    s[..|s| - 1]
  }

  function Last<T>(s: seq<T>): T
    requires s != []
  {
    s[|s| - 1]
  }

  /** True iff the innermost open element is `name`, so that its end tag may come next. */
  predicate Closes(open: seq<Name>, name: Name) {
    open != [] && Last(open) == name
  }

  /**
   The open-element path after reading `tokens` from the path `open`; None when an end tag does
   not match the element it should close, or a token stands where XML does not allow it.
   */
  function OpenPath(tokens: seq<Token>, open: seq<Name>): Option<seq<Name>> {
    if tokens == [] then Some(open)
    else match tokens[0]
      case StartElement(name, _) => OpenPath(tokens[1..], open + [name])
      case EndElement(name) =>
        if Closes(open, name) then OpenPath(tokens[1..], Init(open)) else None
      case Dtd(_) => if open == [] then OpenPath(tokens[1..], open) else None
      case Characters(_) => OpenPath(tokens[1..], open)
      case Comment(_) => OpenPath(tokens[1..], open)
      case EntityReference(_) => OpenPath(tokens[1..], open)
      case ProcessingInstruction(_) => OpenPath(tokens[1..], open)
      case _ => None
  }

  /** A stream in which every element is closed by its own end tag. */
  predicate WellNested(tokens: seq<Token>) {
    OpenPath(tokens, []) == Some([])
  }

  lemma OpenPathConcat(left: seq<Token>, right: seq<Token>, open: seq<Name>)
    ensures OpenPath(left + right, open)
         == (var mid := OpenPath(left, open);
             if mid.None? then None else OpenPath(right, mid.value))
  {
    if left == [] {
      assert left + right == right;
    } else {
      assert (left + right)[1..] == left[1..] + right;
    }
  }

  // ----- the document tree -----

  /** A list of sibling nodes; every node carries the siblings that follow it. */
  datatype Forest =
    | Nil
    | Element(name: Name, attributes: seq<Attribute>, children: Forest, next: Forest)
    | Leaf(token: Token, next: Forest)

  /** Leaves hold inline tokens; a DTD may only stand outside the root element. */
  predicate ValidForest(f: Forest, top: bool) {
    match f
    case Nil => true
    case Element(_, _, children, next) => ValidForest(children, false) && ValidForest(next, top)
    case Leaf(token, next) => (IsInline(token) || (top && token.Dtd?)) && ValidForest(next, top)
  }

  function Flatten(f: Forest): seq<Token> {
    match f
    case Nil => []
    case Element(name, attributes, children, next) =>
      [StartElement(name, attributes)] + Flatten(children) + [EndElement(name)] + Flatten(next)
    case Leaf(token, next) => [token] + Flatten(next)
  }

  /** Flattening a tree leaves the path of open elements as it was. */
  lemma {:induction false} FlattenKeepsPath(f: Forest, open: seq<Name>)
    requires ValidForest(f, open == [])
    ensures OpenPath(Flatten(f), open) == Some(open)
  {
    match f
    case Nil =>
    case Leaf(token, next) =>
      assert Flatten(f)[1..] == Flatten(next);
      FlattenKeepsPath(next, open);
    case Element(name, attributes, children, next) =>
      var inside := Flatten(children);
      var after := [EndElement(name)] + Flatten(next);
      assert Flatten(f) == [StartElement(name, attributes)] + (inside + after);
      FlattenKeepsPath(children, open + [name]);
      OpenPathConcat(inside, after, open + [name]);
      assert Init(open + [name]) == open;
      assert after[1..] == Flatten(next);
      FlattenKeepsPath(next, open);
  }

  /** Reads siblings up to the first end tag that closes none of them; also yields what is left. */
  function Parse(tokens: seq<Token>): (r: (Forest, seq<Token>))
    ensures |r.1| <= |tokens|
    decreases |tokens|
  {
    if tokens == [] || tokens[0].EndElement? then (Nil, tokens)
    else if tokens[0].StartElement? then
      var inside := Parse(tokens[1..]);
      var after := Parse(if inside.1 == [] then [] else inside.1[1..]);
      (Element(tokens[0].name, tokens[0].attributes, inside.0, after.0), after.1)
    else
      var after := Parse(tokens[1..]);
      (Leaf(tokens[0], after.0), after.1)
  }

  /** Puts a stream back together that was taken apart at an element's two tags. */
  lemma Reassemble(
    tokens: seq<Token>, inside: seq<Token>, atEnd: seq<Token>, after: seq<Token>, rest: seq<Token>)
    requires tokens != [] && tokens[1..] == inside + atEnd
    requires atEnd != [] && atEnd[1..] == after + rest
    ensures tokens == [tokens[0]] + inside + [atEnd[0]] + after + rest
  {
  }

  /**
   Reading a stream that keeps to a path: what Parse consumed is a valid forest, and what it left
   is either nothing or the end tag of the innermost open element.
   */
  lemma {:induction false} ParseFollowsPath(tokens: seq<Token>, open: seq<Name>)
    requires OpenPath(tokens, open) == Some([])
    ensures var (f, rest) := Parse(tokens);
            && ValidForest(f, open == [])
            && tokens == Flatten(f) + rest
            && OpenPath(rest, open) == Some([])
            && (if open == [] then rest == [] else rest != [] && rest[0] == EndElement(Last(open)))
    decreases |tokens|
  {
    if tokens == [] || tokens[0].EndElement? {
    } else if tokens[0].StartElement? {
      var name := tokens[0].name;
      var inside := Parse(tokens[1..]);
      ParseFollowsPath(tokens[1..], open + [name]);
      assert Init(open + [name]) == open;
      var after := Parse(inside.1[1..]);
      ParseFollowsPath(inside.1[1..], open);
      Reassemble(tokens, Flatten(inside.0), inside.1, Flatten(after.0), after.1);
    } else {
      ParseFollowsPath(tokens[1..], open);
      assert tokens == [tokens[0]] + tokens[1..];
    }
  }

  function Tree(tokens: seq<Token>): Forest {
    Parse(tokens).0
  }

  /** The well-nested streams are exactly the flattened trees. */
  lemma WellNestedIsFlattenedTree(tokens: seq<Token>)
    ensures WellNested(tokens)
       <==> ValidForest(Tree(tokens), true) && Flatten(Tree(tokens)) == tokens
  {
    if WellNested(tokens) {
      ParseFollowsPath(tokens, []);
    }
    if ValidForest(Tree(tokens), true) && Flatten(Tree(tokens)) == tokens {
      FlattenKeepsPath(Tree(tokens), []);
    }
  }

  /** A valid tree can be read off its flattening. */
  lemma {:induction false} ParseReadsFlattened(f: Forest, top: bool, rest: seq<Token>)
    requires ValidForest(f, top) && (rest != [] ==> rest[0].EndElement?)
    ensures Parse(Flatten(f) + rest) == (f, rest)
  {
    match f
    case Nil =>
      assert Flatten(f) + rest == rest;
    case Leaf(token, next) =>
      assert Flatten(f) + rest == [token] + (Flatten(next) + rest);
      ParseReadsFlattened(next, top, rest);
    case Element(name, attributes, children, next) =>
      var after := [EndElement(name)] + (Flatten(next) + rest);
      assert Flatten(f) + rest == [StartElement(name, attributes)] + (Flatten(children) + after);
      ParseReadsFlattened(children, false, after);
      assert after[1..] == Flatten(next) + rest;
      ParseReadsFlattened(next, top, rest);
  }

  lemma TreeOfFlattened(f: Forest)
    requires ValidForest(f, true)
    ensures Tree(Flatten(f)) == f
  {
    ParseReadsFlattened(f, true, []);
    assert Flatten(f) + [] == Flatten(f);
  }

  // ----- printing and reading back -----

  /** Printed text carries no token boundaries: adjacent runs of characters are read back as one. */
  function Merge(tokens: seq<Token>): seq<Token>
    decreases |tokens|
  {
    if |tokens| < 2 then tokens
    else if tokens[0].Characters? && tokens[1].Characters? then
      Merge([Characters(tokens[0].text + tokens[1].text)] + tokens[2..])
    else
      [tokens[0]] + Merge(tokens[1..])
  }

  /** The token stream the reader delivers for a text with the content `content`. */
  function Document(content: seq<Token>): seq<Token> {
    [StartDocument] + content + [EndDocument]
  }

  /**
   What can be read back of printed tokens: a start tag gets its closing bracket only with the next
   token, so a start tag that comes last is lost.
   */
  function Printed(tokens: seq<Token>): seq<Token> {
    if tokens != [] && Last(tokens).StartElement? then Init(tokens) else tokens
  }

  /** The token stream the reader delivers when it gets back the tokens `read`, up to an end or an error. */
  function Reread(read: seq<Token>, end: Token): seq<Token> {
    [StartDocument] + Merge(read) + [end]
  }
}
