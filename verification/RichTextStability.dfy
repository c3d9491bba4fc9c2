/**
 What the pass writes, on every input: balanced tokens that the filter has nothing more to do to.
 So running the filter on its own output, as read back, changes nothing.
 */
module RichTextStability {
  import opened TextBasics
  import opened XmlDocument
  import opened RichTextFilter
  import opened RichTextPruning

  // ----- attributes -----

  /** Unique Att Spec, XML 1.0, section 3.1: no attribute name appears twice in a tag. */
  predicate UniqueNames(attributes: seq<Attribute>) {
    forall i, j | 0 <= i < j < |attributes| :: attributes[i].name != attributes[j].name
  }

  /** The positions of the align attributes, in order. */
  function AlignPositions(attributes: seq<Attribute>): (r: seq<nat>)
    ensures forall k | 0 <= k < |r| :: r[k] < |attributes|
  {
    if attributes == [] then []
    else
      var earlier := AlignPositions(Init(attributes));
      if IsAlign(Last(attributes)) then earlier + [|attributes| - 1] else earlier
  }

  lemma {:induction false} AlignPositionsAreAll(attributes: seq<Attribute>)
    ensures var r := AlignPositions(attributes);
      && (forall j, k | 0 <= j < k < |r| :: r[j] < r[k])
      && (forall i: nat | i < |attributes| :: i in r <==> attributes[i].name.local == "align")
  {
    if attributes != [] {
      AlignPositionsAreAll(Init(attributes));
    }
  }

  lemma {:induction false} OnlyAlignConcat(left: seq<Attribute>, right: seq<Attribute>)
    ensures OnlyAlign(left + right) == OnlyAlign(left) + OnlyAlign(right)
  {
    if left == [] {
      assert left + right == right;
    } else {
      assert (left + right)[1..] == left[1..] + right;
      OnlyAlignConcat(left[1..], right);
    }
  }

  /** What is left of a paragraph's attributes: the align ones, each at its turn, and no others. */
  lemma {:induction false} OnlyAlignKeepsOrder(attributes: seq<Attribute>)
    ensures var r := AlignPositions(attributes);
      && |OnlyAlign(attributes)| == |r|
      && forall k | 0 <= k < |r| :: OnlyAlign(attributes)[k] == attributes[r[k]]
  {
    if attributes != [] {
      var earlier, last := Init(attributes), Last(attributes);
      assert attributes == earlier + [last];
      OnlyAlignConcat(earlier, [last]);
      OnlyAlignKeepsOrder(earlier);
      assert OnlyAlign([last]) == if IsAlign(last) then [last] else [];
    }
  }

  lemma {:induction false} OnlyAlignTwice(attributes: seq<Attribute>)
    ensures OnlyAlign(OnlyAlign(attributes)) == OnlyAlign(attributes)
    ensures HasAlign(OnlyAlign(attributes)) <==> HasAlign(attributes)
  {
    AlignPositionsAreAll(attributes);
    OnlyAlignKeepsOrder(attributes);
    var left, r := OnlyAlign(attributes), AlignPositions(attributes);
    assert forall k | 0 <= k < |left| :: r[k] in r && left[k] == attributes[r[k]];
    AllAlignUnchanged(left);
    if i :| 0 <= i < |attributes| && IsAlign(attributes[i]) {
      assert i in r;
      var k :| 0 <= k < |r| && r[k] == i;
      assert IsAlign(left[k]);
    }
  }

  lemma {:induction false} AllAlignUnchanged(attributes: seq<Attribute>)
    requires forall k | 0 <= k < |attributes| :: IsAlign(attributes[k])
    ensures OnlyAlign(attributes) == attributes
  {
    if attributes != [] {
      AllAlignUnchanged(attributes[1..]);
    }
  }

  /** Filtering is idempotent, keeps names unique, and keeps a paragraph's alignment. */
  lemma FilteredAttributesStable(name: string, attributes: seq<Attribute>)
    ensures var left := FilteredAttributes(name, attributes);
      && FilteredAttributes(name, left) == left
      && (UniqueNames(attributes) ==> UniqueNames(left))
      && (AlignsParagraph(name, left) <==> AlignsParagraph(name, attributes))
  {
    if name == "p" {
      OnlyAlignTwice(attributes);
      AlignPositionsAreAll(attributes);
      OnlyAlignKeepsOrder(attributes);
    }
  }

  // ----- what has been written -----

  /** A token the filter has nothing to do to. */
  predicate IsClean(token: Token) {
    match token
    case StartElement(name, attributes) =>
      && name.uri == "" && FilterElement(name.local)
      && FilteredAttributes(name.local, attributes) == attributes
    case EndElement(name) => name.uri == ""
    case Characters(text) => !IsBlank(text)
    case _ => false
  }

  predicate AllClean(tokens: seq<Token>) {
    forall i | 0 <= i < |tokens| :: IsClean(tokens[i])
  }

  function StartTags(tokens: seq<Token>): nat {
    if tokens == [] then 0
    else (if tokens[0].StartElement? then 1 else 0) + StartTags(tokens[1..])
  }

  predicate AlignsSomewhere(tokens: seq<Token>) {
    exists i :: 0 <= i < |tokens| && AlignsAt(tokens[i])
  }

  /** The start tag of a paragraph with an align attribute. */
  predicate AlignsAt(token: Token) {
    && token.StartElement? && token.name.local == "p"
    && exists i :: 0 <= i < |token.attributes| && token.attributes[i].name.local == "align"
  }

  /** The printed path: what the writer's stack holds while `open` are the elements being read. */
  ghost predicate IsConsistent(p: Progress) {
    && AllClean(p.out)
    && OpenPath(p.out, []) == Some(WrittenPath(p.open))
    && (p.alignmentFound <==> AlignsSomewhere(p.out))
  }

  lemma WriteToken(p: Progress, token: Token, q: Progress)
    requires IsConsistent(p) && IsClean(token) && q.out == p.out + [token]
    requires OpenPath([token], WrittenPath(p.open)) == Some(WrittenPath(q.open))
    requires q.alignmentFound <==> p.alignmentFound || AlignsAt(token)
    ensures IsConsistent(q)
  {
    OpenPathConcat(p.out, [token], []);
    assert AlignsSomewhere(q.out) <==> AlignsSomewhere(p.out) || AlignsAt(token) by {
      assert q.out[|p.out|] == token;
      assert forall i | 0 <= i < |p.out| :: q.out[i] == p.out[i];
    }
  }

  lemma TurnStaysConsistent(behaviour: ReadTextBehaviour, tokens: seq<Token>, p: Progress)
    requires tokens != [] && IsConsistent(p)
    ensures IsConsistent(Turn(behaviour, tokens, p).1)
  {
    var q := Turn(behaviour, tokens, p).1;
    match tokens[0]
    case StartElement(name, attributes) =>
      if FilterElement(name.local) {
        FilteredAttributesStable(name.local, attributes);
        assert WrittenPath(q.open) == WrittenPath(p.open) + [Written(name)];
        WriteToken(p, Last(q.out), q);
      }
    case EndElement(name) =>
      if Closes(p.open, name) {
        assert WrittenPath(q.open) == Init(WrittenPath(p.open));
        WriteToken(p, EndElement(Written(name)), q);
      }
    case Characters(text) =>
      if !IsBlank(text) {
        WriteToken(p, tokens[0], q);
      }
    case _ =>
  }

  /**
   On every stream: the output is clean, its tags nest as the elements still open say, and the
   alignment flag says whether an aligned paragraph has been written.
   */
  lemma {:induction false} OutputIsConsistent(behaviour: ReadTextBehaviour, tokens: seq<Token>, p: Progress)
    requires IsConsistent(p)
    ensures IsConsistent(Simplify(behaviour, tokens, p))
    decreases |tokens|
  {
    if tokens != [] {
      TurnStaysConsistent(behaviour, tokens, p);
      var (rest, next) := Turn(behaviour, tokens, p);
      OutputIsConsistent(behaviour, rest, next);
    }
  }

  /** On every stream: the output's tags nest, up to the elements that have not been closed. */
  lemma OutputNests(text: seq<Token>)
    ensures IsConsistent(Simplified(text))
  {
    assert WrittenPath([]) == [];
    OutputIsConsistent(ErrorOnUnexpectedElement, text, START);
  }

  /** What the filter is for: no meta or style element, no blank text, no attributes but as allowed. */
  predicate IsSimple(token: Token) {
    match token
    case StartElement(name, attributes) =>
      && name.local != "meta" && name.local != "style"
      && (name.local == "body" ==> attributes == [])
      && (name.local == "p" ==> forall i | 0 <= i < |attributes| :: attributes[i].name.local == "align")
    case EndElement(_) => true
    case Characters(text) => exists i :: 0 <= i < |text| && !IsSpace(text[i])
    case _ => false
  }

  lemma CleanIsSimple(token: Token)
    requires IsClean(token)
    ensures IsSimple(token)
  {
    if token.StartElement? && token.name.local == "p" {
      OnlyAlignIsAlign(token.attributes);
    }
  }

  lemma OnlyAlignIsAlign(attributes: seq<Attribute>)
    requires OnlyAlign(attributes) == attributes
    ensures forall i | 0 <= i < |attributes| :: IsAlign(attributes[i])
  {
    AlignPositionsAreAll(attributes);
    OnlyAlignKeepsOrder(attributes);
    var r := AlignPositions(attributes);
    assert forall k | 0 <= k < |r| :: r[k] in r;
  }

  /** On every stream, nothing but simple tokens is written. */
  lemma OutputIsSimple(text: seq<Token>)
    ensures forall i | 0 <= i < |Simplified(text).out| :: IsSimple(Simplified(text).out[i])
  {
    OutputNests(text);
    var out := Simplified(text).out;
    forall i | 0 <= i < |out|
      ensures IsSimple(out[i])
    {
      CleanIsSimple(out[i]);
    }
  }

  // ----- printing and reading back -----

  lemma {:induction false} MergeKeeps(tokens: seq<Token>, open: seq<Name>)
    ensures AllClean(tokens) ==> AllClean(Merge(tokens))
    ensures OpenPath(Merge(tokens), open) == OpenPath(tokens, open)
    ensures StartTags(Merge(tokens)) == StartTags(tokens)
    ensures AlignsSomewhere(Merge(tokens)) <==> AlignsSomewhere(tokens)
    decreases |tokens|
  {
    if |tokens| < 2 {
    } else if tokens[0].Characters? && tokens[1].Characters? {
      MergeFirstTwo(tokens, open);
      MergeKeeps([Characters(tokens[0].text + tokens[1].text)] + tokens[2..], open);
    } else {
      var rest, merged := tokens[1..], Merge(tokens[1..]);
      assert Merge(tokens) == [tokens[0]] + merged && ([tokens[0]] + merged)[1..] == merged;
      MergeKeepsAfter(tokens, open);
      SomewhereInRest(tokens[0], rest);
      SomewhereInRest(tokens[0], merged);
      assert tokens == [tokens[0]] + rest;
    }
  }

  lemma {:induction false} MergeKeepsAfter(tokens: seq<Token>, open: seq<Name>)
    requires tokens != []
    ensures AllClean(tokens[1..]) ==> AllClean(Merge(tokens[1..]))
    ensures OpenPath([tokens[0]] + Merge(tokens[1..]), open) == OpenPath(tokens, open)
    ensures StartTags(Merge(tokens[1..])) == StartTags(tokens[1..])
    ensures AlignsSomewhere(Merge(tokens[1..])) <==> AlignsSomewhere(tokens[1..])
    decreases |tokens|, 0
  {
    MergeKeeps(tokens[1..], open);
    var first := OpenPath([tokens[0]], open);
    OpenPathConcat([tokens[0]], Merge(tokens[1..]), open);
    OpenPathConcat([tokens[0]], tokens[1..], open);
    assert tokens == [tokens[0]] + tokens[1..];
    if first.Some? {
      MergeKeeps(tokens[1..], first.value);
    }
  }

  lemma SomewhereInRest(token: Token, rest: seq<Token>)
    ensures AlignsSomewhere([token] + rest) <==> AlignsAt(token) || AlignsSomewhere(rest)
  {
    var all := [token] + rest;
    assert all[0] == token && forall i | 0 <= i < |rest| :: all[i + 1] == rest[i];
    if i :| 0 <= i < |all| && AlignsAt(all[i]) {
      assert i > 0 ==> AlignsAt(rest[i - 1]);
    }
  }

  lemma MergeFirstTwo(tokens: seq<Token>, open: seq<Name>)
    requires |tokens| >= 2 && tokens[0].Characters? && tokens[1].Characters?
    ensures var joined := [Characters(tokens[0].text + tokens[1].text)] + tokens[2..];
      && (AllClean(tokens) ==> AllClean(joined))
      && OpenPath(joined, open) == OpenPath(tokens, open)
      && StartTags(joined) == StartTags(tokens)
      && (AlignsSomewhere(joined) <==> AlignsSomewhere(tokens))
  {
    var joined := [Characters(tokens[0].text + tokens[1].text)] + tokens[2..];
    JoinedNotBlank(tokens[0].text, tokens[1].text);
    assert joined[1..] == tokens[2..] == tokens[1..][1..];
    assert tokens == [tokens[0]] + ([tokens[1]] + tokens[2..]);
    SomewhereInRest(joined[0], tokens[2..]);
    SomewhereInRest(tokens[1], tokens[2..]);
    SomewhereInRest(tokens[0], [tokens[1]] + tokens[2..]);
    assert AllClean(tokens) ==> AllClean(joined) by {
      assert forall i | 1 <= i < |joined| :: joined[i] == tokens[i + 1];
    }
  }

  // ----- the second run -----

  /** The progress when tokens with `tags` start tags have been written, which lead to the path `open`. */
  function Advanced(p: Progress, tokens: seq<Token>, open: seq<Name>, tags: nat, aligned: bool): Progress {
    Progress(p.out + tokens, open, (p.elementCount + tags) % UINT_MODULUS, p.alignmentFound || aligned)
  }

  lemma AdvancedTwice(
    p: Progress, left: seq<Token>, mid: seq<Name>, tags: nat, aligned: bool,
    right: seq<Token>, open: seq<Name>, moreTags: nat, moreAligned: bool)
    ensures Advanced(Advanced(p, left, mid, tags, aligned), right, open, moreTags, moreAligned)
         == Advanced(p, left + right, open, tags + moreTags, aligned || moreAligned)
  {
    assert p.out + left + right == p.out + (left + right);
  }

  /** The progress when `tokens` have been copied to the output as they are. */
  function Copied(p: Progress, tokens: seq<Token>): Progress
    requires OpenPath(tokens, p.open).Some?
  {
    Advanced(p, tokens, OpenPath(tokens, p.open).value, StartTags(tokens), AlignsSomewhere(tokens))
  }

  lemma TurnCopiesClean(behaviour: ReadTextBehaviour, token: Token, rest: seq<Token>, p: Progress)
    requires IsClean(token) && OpenPath([token], p.open).Some? && p.elementCount < UINT_MODULUS
    ensures Turn(behaviour, [token] + rest, p) == (rest, Copied(p, [token]))
  {
    assert ([token] + rest)[1..] == rest;
    SomewhereInRest(token, []);
    assert StartTags([token]) == if token.StartElement? then 1 else 0;
  }

  lemma AlignsConcat(left: seq<Token>, right: seq<Token>)
    ensures AlignsSomewhere(left + right) <==> AlignsSomewhere(left) || AlignsSomewhere(right)
  {
    var both := left + right;
    assert forall i | 0 <= i < |left| :: both[i] == left[i];
    assert forall i | 0 <= i < |right| :: both[|left| + i] == right[i];
    if i :| 0 <= i < |both| && AlignsAt(both[i]) {
      assert if i < |left| then AlignsAt(left[i]) else AlignsAt(right[i - |left|]);
    }
  }

  lemma CopiedConcat(p: Progress, left: seq<Token>, right: seq<Token>)
    requires OpenPath(left + right, p.open).Some?
    ensures OpenPath(left, p.open).Some? && OpenPath(right, Copied(p, left).open).Some?
    ensures Copied(Copied(p, left), right) == Copied(p, left + right)
  {
    OpenPathConcat(left, right, p.open);
    StartTagsConcat(left, right);
    AlignsConcat(left, right);
    var mid := OpenPath(left, p.open).value;
    AdvancedTwice(
      p, left, mid, StartTags(left), AlignsSomewhere(left),
      right, OpenPath(right, mid).value, StartTags(right), AlignsSomewhere(right));
  }

  /** The pass copies clean tokens that nest. */
  lemma {:induction false} PassCopiesClean(
    behaviour: ReadTextBehaviour, tokens: seq<Token>, rest: seq<Token>, p: Progress)
    requires AllClean(tokens) && OpenPath(tokens, p.open).Some? && p.elementCount < UINT_MODULUS
    ensures Simplify(behaviour, tokens + rest, p) == Simplify(behaviour, rest, Copied(p, tokens))
    decreases |tokens|
  {
    if tokens == [] {
      assert tokens + rest == rest && p.out + tokens == p.out;
    } else {
      var token, later := tokens[0], tokens[1..];
      assert tokens == [token] + later && tokens + rest == [token] + (later + rest);
      CopiedConcat(p, [token], later);
      TurnCopiesClean(behaviour, token, later + rest, p);
      PassCopiesClean(behaviour, later, rest, Copied(p, [token]));
    }
  }

  predicate IsEnd(token: Token) {
    token == EndDocument || token == Invalid
  }

  /** The filter leaves clean tokens that nest as they are, up to the end of the text or an error. */
  lemma CleanTextUnchanged(tokens: seq<Token>, end: Token)
    requires AllClean(tokens) && OpenPath(tokens, []).Some? && IsEnd(end)
    ensures Simplified([StartDocument] + tokens + [end])
         == Progress(tokens, OpenPath(tokens, []).value, StartTags(tokens) % UINT_MODULUS, AlignsSomewhere(tokens))
  {
    assert [StartDocument] + tokens + [end] == [StartDocument] + (tokens + [end]);
    SimplifyStarts(ErrorOnUnexpectedElement, StartDocument, tokens + [end], START);
    PassCopiesClean(ErrorOnUnexpectedElement, tokens, [end], START);
    SimplifyStarts(ErrorOnUnexpectedElement, end, [], Copied(START, tokens));
    assert [end] + [] == [end] && [] + tokens == tokens;
  }

  /**
   Running the filter on any part of its output that is read back, from the start on, leaves that
   part as it is: this holds for every text, and wherever the first run stopped.
   */
  lemma SecondRunKeepsWhatIsRead(text: seq<Token>, read: seq<Token>, end: Token)
    requires read <= Simplified(text).out && IsEnd(end)
    ensures OpenPath(read, []).Some?
    ensures Simplified(Reread(read, end))
         == Progress(Merge(read), OpenPath(read, []).value, StartTags(read) % UINT_MODULUS, AlignsSomewhere(read))
    ensures Merge(Merge(read)) == Merge(read)
  {
    var out := Simplified(text).out;
    OutputNests(text);
    assert out == read + out[|read|..];
    OpenPathConcat(read, out[|read|..], []);
    assert AllClean(read) by {
      assert forall i | 0 <= i < |read| :: read[i] == out[i];
    }
    MergeKeeps(read, []);
    CleanTextUnchanged(Merge(read), end);
    MergeTwice(read);
  }

  predicate EndsInStartTag(tokens: seq<Token>) {
    tokens != [] && Last(tokens).StartElement?
  }

  lemma PrintedLosesStartTag(tokens: seq<Token>)
    ensures Printed(tokens) <= tokens
    ensures StartTags(tokens) == StartTags(Printed(tokens)) + (if EndsInStartTag(tokens) then 1 else 0)
  {
    if EndsInStartTag(tokens) {
      assert tokens == Init(tokens) + [Last(tokens)];
      StartTagsConcat(Init(tokens), [Last(tokens)]);
    }
  }

  /**
   Running the filter on its own output, as it was printed, changes nothing if and only if the first
   run did not stop right behind a start tag. If it did, that tag is lost, and all else stays.
   */
  lemma SecondRunChangesNothingIff(text: seq<Token>, end: Token)
    requires IsEnd(end)
    ensures var first := Simplified(text);
      var second := Simplified(Reread(Printed(first.out), end));
      && second.out == Merge(Printed(first.out))
      && (second.out == Merge(first.out) <==> !EndsInStartTag(first.out))
      && second.elementCount == StartTags(Printed(first.out)) % UINT_MODULUS
      && second.alignmentFound == AlignsSomewhere(Printed(first.out))
  {
    var out := Simplified(text).out;
    PrintedLosesStartTag(out);
    SecondRunKeepsWhatIsRead(text, Printed(out), end);
    MergeKeeps(out, []);
    MergeKeeps(Printed(out), []);
  }

  lemma LastStartTagIsOpen(tokens: seq<Token>)
    requires EndsInStartTag(tokens) && OpenPath(tokens, []).Some?
    ensures OpenPath(tokens, []).value != []
  {
    assert tokens == Init(tokens) + [Last(tokens)];
    OpenPathConcat(Init(tokens), [Last(tokens)], []);
    assert [Last(tokens)][1..] == [];
  }

  /** So a run that closed all its elements is followed by one that changes nothing, and does so, too. */
  lemma SecondRunOfCompleteChangesNothing(text: seq<Token>)
    requires Simplified(text).open == []
    ensures var first := Simplified(text);
      var second := Simplified(Reread(Printed(first.out), EndDocument));
      && Printed(first.out) == first.out
      && second.out == Merge(first.out) && second.open == []
      && second.alignmentFound == first.alignmentFound
      && second.elementCount == StartTags(first.out) % UINT_MODULUS
  {
    var out := Simplified(text).out;
    OutputNests(text);
    assert WrittenPath([]) == [];
    if EndsInStartTag(out) {
      LastStartTagIsOpen(out);
    }
    SecondRunKeepsWhatIsRead(text, out, EndDocument);
  }

  /** A kept element that begins with a discarded one with a child: the second run loses its start tag. */
  lemma LastStartTagIsLost(kept: Name, discarded: Name, child: Name, end: Token)
    requires FilterElement(kept.local) && !FilterElement(discarded.local) && IsEnd(end)
    ensures var style := Element(discarded, [], Element(child, [], Nil, Nil), Nil);
      var first := Simplified(Document(Flatten(Element(kept, [], style, Nil))));
      && first.out == [StartElement(Written(kept), [])]
      && Simplified(Reread(Printed(first.out), end)).out == []
  {
    var inner := Element(child, [], Nil, Nil);
    var style := Element(discarded, [], inner, Nil);
    var f := Element(kept, [], style, Nil);
    var content, inside := Flatten(f), OnStart(START, kept, []);
    assert ValidForest(inner, false) && ValidForest(style, false) && HasElements(inner);
    assert Document(content) == [StartDocument] + (content + [EndDocument]);
    SimplifyStarts(ErrorOnUnexpectedElement, StartDocument, content + [EndDocument], START);
    PassStopsInElement(f, true, [EndDocument], START);
    var start, after := StartElement(discarded, []), [EndElement(discarded)];
    assert Flatten(style) == [start] + (Flatten(inner) + after);
    SimplifyStarts(ErrorOnUnexpectedElement, start, Flatten(inner) + after, inside);
    ElementTextFailsAtChild(inner, after, [discarded]);
    var first := Simplified(Document(content));
    assert first.out == [StartElement(Written(kept), [])];
    SecondRunChangesNothingIff(Document(content), end);
    assert Printed(first.out) == [];
  }

  lemma {:induction false} MergeTwice(tokens: seq<Token>)
    ensures Merge(Merge(tokens)) == Merge(tokens)
    ensures tokens != [] ==> Merge(tokens) != []
    ensures tokens != [] ==> (Merge(tokens)[0].Characters? <==> tokens[0].Characters?)
    decreases |tokens|
  {
    if |tokens| >= 2 {
      if tokens[0].Characters? && tokens[1].Characters? {
        MergeTwice([Characters(tokens[0].text + tokens[1].text)] + tokens[2..]);
      } else {
        MergeTwice(tokens[1..]);
        var merged := Merge(tokens[1..]);
        assert ([tokens[0]] + merged)[1..] == merged;
      }
    }
  }

  /** What is printed, character by character. */
  function Print(tokens: seq<Token>): seq<Token> {
    if tokens == [] then []
    else (if tokens[0].Characters? then Letters(tokens[0].text) else [tokens[0]]) + Print(tokens[1..])
  }

  function Letters(text: string): seq<Token> {
    seq(|text|, i requires 0 <= i < |text| => Characters([text[i]]))
  }

  lemma PrintOfTwo(first: Token, second: Token, later: seq<Token>)
    requires first.Characters? && second.Characters?
    ensures Print([first, second] + later) == Print([Characters(first.text + second.text)] + later)
  {
    assert ([first, second] + later)[1..] == [second] + later;
    assert ([second] + later)[1..] == later;
    assert ([Characters(first.text + second.text)] + later)[1..] == later;
    assert Letters(first.text + second.text) == Letters(first.text) + Letters(second.text);
  }

  predicate TextIsJoined(tokens: seq<Token>) {
    forall i | 0 < i < |tokens| :: tokens[i].Characters? ==> !tokens[i - 1].Characters?
  }

  /** What is read back has no two adjacent runs of text, and prints as the same text does. */
  lemma {:induction false} MergeIsWhatIsRead(tokens: seq<Token>)
    ensures TextIsJoined(Merge(tokens)) && Print(Merge(tokens)) == Print(tokens)
    decreases |tokens|
  {
    if |tokens| >= 2 {
      if tokens[0].Characters? && tokens[1].Characters? {
        PrintOfTwo(tokens[0], tokens[1], tokens[2..]);
        assert tokens == [tokens[0], tokens[1]] + tokens[2..];
        MergeIsWhatIsRead([Characters(tokens[0].text + tokens[1].text)] + tokens[2..]);
      } else {
        MergeIsWhatIsRead(tokens[1..]);
        MergeTwice(tokens[1..]);
        var merged := Merge(tokens[1..]);
        assert ([tokens[0]] + merged)[1..] == merged;
      }
    }
  }

  // ----- the plain-text verdict -----

  lemma {:induction false} StartTagsConcat(left: seq<Token>, right: seq<Token>)
    ensures StartTags(left + right) == StartTags(left) + StartTags(right)
  {
    if left == [] {
      assert left + right == right;
    } else {
      assert (left + right)[1..] == left[1..] + right;
      StartTagsConcat(left[1..], right);
    }
  }

  /** The elements written are the elements met, less those discarded. */
  lemma {:induction false} StartTagsOfPruned(f: Forest)
    ensures StartTags(Flatten(Prune(f))) + ElementsDiscarded(f) == ElementsMet(f)
  {
    match f
    case Nil =>
    case Leaf(token, next) =>
      StartTagsOfPruned(next);
      if token.Characters? && !IsBlank(token.text) {
        StartTagsConcat([token], Flatten(Prune(next)));
      }
    case Element(name, attributes, children, next) =>
      StartTagsOfPruned(children);
      StartTagsOfPruned(next);
      if FilterElement(name.local) {
        var start := StartElement(Written(name), FilteredAttributes(name.local, attributes));
        var inside, after := Flatten(Prune(children)), Flatten(Prune(next));
        StartTagsConcat([start] + inside + [EndElement(Written(name))], after);
        StartTagsConcat([start] + inside, [EndElement(Written(name))]);
        StartTagsConcat([start], inside);
      }
  }

  predicate StartsDiscarded(token: Token) {
    token.StartElement? && (token.name.local == "meta" || token.name.local == "style")
  }

  /** Meta and style elements met by the pass, those with child elements included. */
  function DiscardedMet(behaviour: ReadTextBehaviour, tokens: seq<Token>, p: Progress): nat
    decreases |tokens|
  {
    if tokens == [] then 0
    else
      var (rest, next) := Turn(behaviour, tokens, p);
      (if StartsDiscarded(tokens[0]) then 1 else 0) + DiscardedMet(behaviour, rest, next)
  }

  /** What a turn writes, and the count that goes with it. */
  lemma TurnWrites(behaviour: ReadTextBehaviour, tokens: seq<Token>, p: Progress) returns (written: seq<Token>)
    requires tokens != [] && p.elementCount < UINT_MODULUS
    ensures var q := Turn(behaviour, tokens, p).1;
      && q.out == p.out + written
      && q.elementCount
         == (p.elementCount + StartTags(written) + (if StartsDiscarded(tokens[0]) then 1 else 0)) % UINT_MODULUS
  {
    var q := Turn(behaviour, tokens, p).1;
    if q.out == p.out {
      written := [];
      assert p.out + [] == p.out;
    } else {
      written := [Last(q.out)];
      assert q.out == p.out + written && written[1..] == [];
    }
  }

  lemma CountInTwoSteps(count: nat, more: nat)
    ensures (count % UINT_MODULUS + more) % UINT_MODULUS == (count + more) % UINT_MODULUS
  {
  }

  lemma TurnCounts(behaviour: ReadTextBehaviour, tokens: seq<Token>, p: Progress, more: nat)
    requires tokens != [] && p.elementCount == (StartTags(p.out) + more) % UINT_MODULUS
    ensures var q := Turn(behaviour, tokens, p).1;
      q.elementCount == (StartTags(q.out) + more + (if StartsDiscarded(tokens[0]) then 1 else 0)) % UINT_MODULUS
  {
    var written := TurnWrites(behaviour, tokens, p);
    StartTagsConcat(p.out, written);
    var added := StartTags(written) + (if StartsDiscarded(tokens[0]) then 1 else 0);
    CountInTwoSteps(StartTags(p.out) + more, added);
  }

  /** On every stream, the counter holds the start tags written and the discarded elements met. */
  lemma {:induction false} CounterIsWrittenAndDiscarded(
    behaviour: ReadTextBehaviour, tokens: seq<Token>, p: Progress, more: nat)
    requires p.elementCount == (StartTags(p.out) + more) % UINT_MODULUS
    ensures var q := Simplify(behaviour, tokens, p);
      q.elementCount == (StartTags(q.out) + more + DiscardedMet(behaviour, tokens, p)) % UINT_MODULUS
    decreases |tokens|
  {
    if tokens != [] {
      var (rest, next) := Turn(behaviour, tokens, p);
      TurnCounts(behaviour, tokens, p, more);
      CounterIsWrittenAndDiscarded(behaviour, rest, next, more + if StartsDiscarded(tokens[0]) then 1 else 0);
    }
  }

  /**
   The verdict on every text, and on its simplified form: both ask for four elements and no aligned
   paragraph, the first in what was written and with the discarded elements added, the second in what
   is read back.
   */
  lemma PlainTextVerdicts(text: seq<Token>, end: Token)
    requires IsEnd(end)
    ensures var first := Simplified(text);
      var read := Printed(first.out);
      var second := Simplified(Reread(read, end));
      var discarded := DiscardedMet(ErrorOnUnexpectedElement, text, START);
      && (IsPlainText(first)
          <==> (StartTags(first.out) + discarded) % UINT_MODULUS == 4 && !AlignsSomewhere(first.out))
      && (IsPlainText(second) <==> StartTags(read) % UINT_MODULUS == 4 && !AlignsSomewhere(read))
      && (discarded == 0 && !EndsInStartTag(first.out) ==> (IsPlainText(second) <==> IsPlainText(first)))
  {
    CounterIsWrittenAndDiscarded(ErrorOnUnexpectedElement, text, START, 0);
    OutputNests(text);
    SecondRunChangesNothingIff(text, end);
  }

  /** What the first run of such a document leaves, in terms of its tree. */
  lemma FirstRunOfTree(content: seq<Token>)
    requires WellNested(content) && DiscardsOnlyText(Tree(content))
    ensures var f, first := Tree(content), Simplified(Document(content));
      && first.open == []
      && first.elementCount == ElementsMet(f) % UINT_MODULUS
      && first.alignmentFound == HasAlignedParagraph(f)
      && StartTags(first.out) + ElementsDiscarded(f) == ElementsMet(f)
  {
    var f, first := Tree(content), Simplified(Document(content));
    SimplifiedIsPruned(content);
    assert first.out == Flatten(Prune(f));
    StartTagsOfPruned(f);
  }

  /** For a document that comes out pruned, the verdicts in terms of its tree. */
  lemma PlainTextVerdictsOfTree(content: seq<Token>)
    requires WellNested(content) && DiscardsOnlyText(Tree(content))
    ensures var f := Tree(content);
      var first := Simplified(Document(content));
      var second := Simplified(Reread(Printed(first.out), EndDocument));
      && (IsPlainText(first)
          <==> ElementsMet(f) % UINT_MODULUS == 4 && !HasAlignedParagraph(f))
      && (IsPlainText(second)
          <==> (ElementsMet(f) - ElementsDiscarded(f)) % UINT_MODULUS == 4 && !HasAlignedParagraph(f))
  {
    FirstRunOfTree(content);
    SecondRunOfCompleteChangesNothing(Document(content));
  }
}
