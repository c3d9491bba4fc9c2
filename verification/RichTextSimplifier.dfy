/**
 The simplification filter as the program runs it: a pull reader, a writer with its own stack of
 open elements, an attribute list edited in place, and one loop that drives them.
 */
module RichTextSimplifier {
  import opened TextBasics
  import opened XmlDocument
  import opened RichTextFilter

  /** A pull reader over the tokens of a text; it refuses an end tag that does not match. */
  class XmlReader {
    const tokens: seq<Token>
    var pos: nat
    var current: Token
    var open: seq<Name>

    ghost predicate Valid()
      reads this
    {
      pos <= |tokens|
    }

    /** No further token will be delivered after the end of the document or after an error. */
    predicate Stopped()
      reads this
    {
      current.EndDocument? || current.Invalid?
    }

    /** What is still to be read. */
    ghost function Rest(): seq<Token>
      requires Valid()
      reads this
    {
      if Stopped() then [] else tokens[pos..]
    }

    constructor (text: seq<Token>)
      ensures Valid() && Rest() == text && open == [] && current == NoToken
    {
      tokens := text;
      pos, current, open := 0, NoToken, [];
    }

    method AtEnd() returns (atEnd: bool)
      requires Valid()
      ensures atEnd <==> Rest() == []
    {
      atEnd := Stopped() || pos == |tokens|;
    }

    method ReadNext() returns (token: Token)
      requires Valid()
      modifies this
      ensures Valid() && token == current
      ensures old(Rest()) == [] ==> Stopped() && open == old(open)
      ensures old(Rest()) != [] ==>
        var next := old(Rest())[0];
        if next.EndElement? && !Closes(old(open), next.name) then
          current == Invalid && open == old(open)
        else
          && current == next
          && (!Stopped() ==> Rest() == old(Rest())[1..])
          && open == (if next.StartElement? then old(open) + [next.name]
                      else if next.EndElement? then Init(old(open)) else old(open))
    {
      if Stopped() {
        return current;
      }
      if pos == |tokens| {
        current := Invalid;
        return current;
      }
      var next := tokens[pos];
      if next.EndElement? && !Closes(open, next.name) {
        current := Invalid;
        return current;
      }
      pos, current := pos + 1, next;
      if next.StartElement? {
        open := open + [next.name];
      } else if next.EndElement? {
        open := Init(open);
      }
      token := current;
    }

    /** Reads the text of the current element up to its end tag; a child element is an error. */
    method ReadElementText()
      requires Valid() && current.StartElement? && Closes(open, current.name)
      modifies this
      ensures Valid()
      ensures match AfterElementText(ErrorOnUnexpectedElement, old(Rest()), [old(current).name])
              case None => Stopped()
              case Some(rest) => !Stopped() && Rest() == rest && open == Init(old(open))
    {
      ghost var target := AfterElementText(ErrorOnUnexpectedElement, Rest(), [current.name]);
      ghost var name := current.name;
      while true
        invariant Valid() && !Stopped() && open == old(open)
        invariant AfterElementText(ErrorOnUnexpectedElement, Rest(), [name]) == target
        decreases |tokens| - pos
      {
        var token := ReadNext();
        if token.EndElement? {
          return;
        }
        if !IsInline(token) {
          current := Invalid;
          return;
        }
      }
    }
  }

  /** A writer that closes elements by the names on its own stack. */
  class XmlWriter {
    var out: seq<Token>
    var open: seq<string>

    constructor ()
      ensures out == [] && open == []
    {
      out, open := [], [];
    }

    method WriteStartElement(name: string)
      modifies this
      ensures out == old(out) + [StartElement(Name("", name), [])]
      ensures open == old(open) + [name]
    {
      out := out + [StartElement(Name("", name), [])];
      open := open + [name];
    }

    /** Adds attributes to the start tag written last. */
    method WriteAttributes(attributes: seq<Attribute>)
      requires out != [] && Last(out).StartElement?
      modifies this
      ensures out == Init(old(out))
                   + [StartElement(Last(old(out)).name, Last(old(out)).attributes + attributes)]
      ensures open == old(open)
    {
      var tag := Last(out);
      out := out[|out| - 1 := tag.(attributes := tag.attributes + attributes)];
    }

    method WriteCharacters(text: string)
      modifies this
      ensures out == old(out) + [Characters(text)] && open == old(open)
    {
      out := out + [Characters(text)];
    }

    method WriteEndElement()
      modifies this
      ensures if old(open) == [] then out == old(out) && open == old(open)
              else out == old(out) + [EndElement(Name("", Last(old(open))))] && open == Init(old(open))
    {
      if open == [] {
        return;
      }
      out := out + [EndElement(Name("", Last(open)))];
      open := Init(open);
    }
  }

  class AttributeList {
    var items: seq<Attribute>

    constructor (attributes: seq<Attribute>)
      ensures items == attributes
    {
      items := attributes;
    }

    method Clear()
      modifies this
      ensures items == []
    {
      items := [];
    }

    method Erase(at: nat)
      requires at < |items|
      modifies this
      ensures items == old(items)[..at] + old(items)[at + 1..]
    {
      items := items[..at] + items[at + 1..];
    }
  }

  /** Edits an attribute list in place; `alignmentFound` is the caller's flag, passed in and back. */
  method FilterAttributes(name: string, atts: AttributeList, alignmentFound: bool)
    returns (found: bool)
    modifies atts
    ensures atts.items == FilteredAttributes(name, old(atts.items))
    ensures found <==> alignmentFound || AlignsParagraph(name, old(atts.items))
  {
    found := alignmentFound;
    if atts.items == [] {
      return;
    }
    if name == "body" {
      atts.Clear();
      return;
    }
    if name == "p" {
      found := EraseAllButAlign(atts, found);
    }
  }

  /** Walks over the list, erasing as it goes; the flag is raised when an attribute stays. */
  method EraseAllButAlign(atts: AttributeList, alignmentFound: bool) returns (found: bool)
    modifies atts
    ensures atts.items == OnlyAlign(old(atts.items))
    ensures found <==> alignmentFound || HasAlign(old(atts.items))
  {
    found := alignmentFound;
    var at := 0;
    ghost var kept, rest := [], atts.items;
    while at < |atts.items|
      invariant at == |kept| && atts.items == kept + rest
      invariant kept + OnlyAlign(rest) == OnlyAlign(old(atts.items))
      invariant found || HasAlign(rest) <==> alignmentFound || HasAlign(old(atts.items))
      decreases |rest|
    {
      ghost var next, later := rest[0], rest[1..];
      AlignFirstOrLater(rest);
      if IsAlign(atts.items[at]) {
        at := at + 1;
        found := true;
        kept := kept + [next];
      } else {
        atts.Erase(at);
      }
      rest := later;
    }
  }

  lemma AlignFirstOrLater(attributes: seq<Attribute>)
    requires attributes != []
    ensures HasAlign(attributes) <==> IsAlign(attributes[0]) || HasAlign(attributes[1..])
  {
  }

  method IsWhiteSpace(text: string) returns (blank: bool)
    ensures blank <==> IsBlank(text)
  {
    var count := |text|;
    for i := 0 to count
      invariant forall j | 0 <= j < i :: IsSpace(text[j])
    {
      if !IsSpace(text[i]) {
        return false;
      }
    }
    return true;
  }

  /** Writes the start tag of an element that is kept, with what is left of its attributes. */
  method WriteFilteredStart(
    writer: XmlWriter, name: Name, attributes: seq<Attribute>, alignmentFound: bool)
    returns (found: bool)
    modifies writer
    ensures found <==> alignmentFound || AlignsParagraph(name.local, attributes)
    ensures writer.out == old(writer.out)
      + [StartElement(Written(name), FilteredAttributes(name.local, attributes))]
    ensures writer.open == old(writer.open) + [name.local]
  {
    var atts := new AttributeList(attributes);
    found := FilterAttributes(name.local, atts, alignmentFound);
    writer.WriteStartElement(name.local);
    assert Init(writer.out) == old(writer.out) && [] + atts.items == atts.items;
    if atts.items != [] {
      writer.WriteAttributes(atts.items);
    }
  }

  /** The writer has written what `p` says, and its stack holds the local names of `p.open`. */
  ghost predicate WritesProgress(writer: XmlWriter, p: Progress)
    reads writer
  {
    && writer.out == p.out
    && |writer.open| == |p.open|
    && forall i | 0 <= i < |p.open| :: writer.open[i] == p.open[i].local
  }

  /**
   What holds at every loop head: the writer and the counters show the progress `p`, and while the
   reader can go on, its open elements are those of `p`, hence those on the writer's stack.
   */
  ghost predicate AtLoopHead(
    reader: XmlReader, writer: XmlWriter, elementCount: nat, alignmentFound: bool, p: Progress)
    reads reader, writer
  {
    && reader.Valid()
    && WritesProgress(writer, p)
    && elementCount == p.elementCount && alignmentFound == p.alignmentFound
    && (!reader.Stopped() ==> reader.open == p.open)
  }

  /** The loop body: reads one token and acts on it. `p` is the progress before, `next` after. */
  method TakeTurn(
    reader: XmlReader, writer: XmlWriter, elementCount: nat, alignmentFound: bool, ghost p: Progress)
    returns (count: nat, found: bool, ghost next: Progress)
    requires AtLoopHead(reader, writer, elementCount, alignmentFound, p) && reader.Rest() != []
    modifies reader, writer
    ensures AtLoopHead(reader, writer, count, found, next)
    ensures (reader.Rest(), next) == Turn(ErrorOnUnexpectedElement, old(reader.Rest()), p)
  {
    count, found, next := elementCount, alignmentFound, p;
    var token := reader.ReadNext();
    match token {
      case StartElement(name, attributes) =>
        count := (count + 1) % UINT_MODULUS;
        if FilterElement(name.local) {
          found := WriteFilteredStart(writer, name, attributes, found);
          next := OnStart(p, name, attributes);
          assert WritesProgress(writer, next);
        } else {
          reader.ReadElementText();
          next := OnDiscarded(p);
        }
      case Characters(characters) =>
        var blank := IsWhiteSpace(characters);
        if !blank {
          writer.WriteCharacters(characters);
        }
        next := OnCharacters(p, characters);
        assert WritesProgress(writer, next);
      case EndElement(name) =>
        writer.WriteEndElement();
        next := OnEnd(p, name);
        assert WritesProgress(writer, next);
      case _ =>
    }
  }

  /** The filter: one pass over the text, until the reader is at its end. */
  method SimplifyRichTextFilter(text: seq<Token>) returns (out: seq<Token>, isPlainText: bool)
    ensures out == Simplified(text).out
    ensures isPlainText <==> IsPlainText(Simplified(text))
  {
    ghost var p := START;
    var elementCount: nat := 0;
    var paragraphAlignmentFound := false;
    var reader := new XmlReader(text);
    var writer := new XmlWriter();

    var atEnd := reader.AtEnd();
    while !atEnd
      invariant fresh(reader) && fresh(writer)
      invariant AtLoopHead(reader, writer, elementCount, paragraphAlignmentFound, p)
      invariant atEnd <==> reader.Rest() == []
      invariant Simplify(ErrorOnUnexpectedElement, reader.Rest(), p) == Simplified(text)
      decreases |reader.Rest()|
    {
      elementCount, paragraphAlignmentFound, p :=
        TakeTurn(reader, writer, elementCount, paragraphAlignmentFound, p);
      atEnd := reader.AtEnd();
    }
    return writer.out, !paragraphAlignmentFound && elementCount == 4;
  }
}
