/**
 The bytes of the stored `\EncryptionInfo`, read without the writer: a scanner of tags and
 quoted values over the text alone, and what it finds in a document that was written.
 */
module DocumentText {
  import opened Errors
  import opened Octets
  import opened Crypto
  import opened EncryptionInfo

  type Name = string
  type Pairs = seq<(string, string)>

  datatype Tag =
    | Open(name: Name, attrs: Pairs)
    | Closed(name: Name, attrs: Pairs)
    | Close(name: Name)

  // ----- the scanner -----

  /** Where one of some characters first stands, or the end. */
  function Find(t: string, i: nat, stops: string): (j: nat)
    requires i <= |t|
    ensures i <= j <= |t| && (j < |t| ==> t[j] in stops)
    decreases |t| - i
  {
    if i == |t| || t[i] in stops then i else Find(t, i + 1, stops)
  }

  /** Every ` name="value"` from a position on, and where the run ends. */
  function AttrsAt(t: string, i: nat): (r: Option<(Pairs, nat)>)
    requires i <= |t|
    ensures r.Some? ==> i <= r.value.1 <= |t|
    decreases |t| - i
  {
    if i == |t| || t[i] != ' ' then Some(([], i))
    else
      var e := Find(t, i + 1, "=");
      if e + 1 >= |t| || t[e + 1] != '"' then None
      else
        var q := Find(t, e + 2, "\"");
        if q == |t| then None
        else
          var rest := AttrsAt(t, q + 1);
          if rest.None? then None else Some(([(t[i + 1..e], t[e + 2..q])] + rest.value.0, rest.value.1))
  }

  function TagAt(t: string, i: nat): (r: Option<(Tag, nat)>)
    requires i <= |t|
    ensures r.Some? ==> i < r.value.1 <= |t|
  {
    if i + 1 >= |t| || t[i] != '<' then None
    else if t[i + 1] == '/' then
      var e := Find(t, i + 2, ">");
      if e == |t| then None else Some((Close(t[i + 2..e]), e + 1))
    else
      var e := Find(t, i + 1, " />");
      var attrs := AttrsAt(t, e);
      if attrs.None? then None
      else EndOfTag(t, t[i + 1..e], attrs.value.0, attrs.value.1)
  }

  function EndOfTag(t: string, name: Name, attrs: Pairs, j: nat): (r: Option<(Tag, nat)>)
    requires j <= |t|
    ensures r.Some? ==> j < r.value.1 <= |t|
  {
    if j < |t| && t[j] == '>' then Some((Open(name, attrs), j + 1))
    else if j + 1 < |t| && t[j] == '/' && t[j + 1] == '>' then Some((Closed(name, attrs), j + 2))
    else None
  }

  function TagsAt(t: string, i: nat): Option<seq<Tag>>
    requires i <= |t|
    decreases |t| - i
  {
    if i == |t| then Some([])
    else
      var tag := TagAt(t, i);
      if tag.None? then None
      else
        var rest := TagsAt(t, tag.value.1);
        if rest.None? then None else Some([tag.value.0] + rest.value)
  }

  /** A byte a character. */
  function Characters(b: Bytes): (t: string)
    ensures |t| == |b|
  {
    seq(|b|, i requires 0 <= i < |b| => b[i] as char)
  }

  const XML_DECLARATION := "<?xml version=\"1.0\"" + " encoding=\"UTF-8\"" + " standalone=\"yes\"?>\r\n"

  /** The tags of a stream of version 4.4 with its reserved word and its declaration. */
  function Tags(b: Bytes): Option<seq<Tag>> {
    if |b| < 8 || b[..8] != [4, 0, 4, 0, 0x40, 0, 0, 0] then None
    else
      var t := Characters(b[8..]);
      if XML_DECLARATION <= t then TagsAt(t, |XML_DECLARATION|) else None
  }

  // ----- a string within a text -----

  predicate Lies(t: string, i: nat, x: string) {
    i + |x| <= |t| && t[i..i + |x|] == x
  }

  lemma LiesApart(t: string, i: nat, x: string, y: string)
    requires Lies(t, i, x + y)
    ensures Lies(t, i, x) && Lies(t, i + |x|, y)
  {
    var slot := t[i..i + |x + y|];
    assert t[i..i + |x|] == slot[..|x|] == x;
    assert t[i + |x|..i + |x| + |y|] == slot[|x|..] == y;
  }

  lemma CharLies(t: string, i: nat, x: string, k: nat)
    requires Lies(t, i, x) && k < |x|
    ensures t[i + k] == x[k]
  {
    assert t[i + k] == t[i..i + |x|][k];
  }

  /** A run without a stop, and then a stop. */
  lemma {:induction false} FindAfter(t: string, i: nat, x: string, stops: string)
    requires Lies(t, i, x) && i + |x| < |t| && t[i + |x|] in stops
    requires forall k :: 0 <= k < |x| ==> x[k] !in stops
    ensures Find(t, i, stops) == i + |x|
    decreases |x|
  {
    if x != "" {
      CharLies(t, i, x, 0);
      LiesApart(t, i, [x[0]], x[1..]) by {
        assert [x[0]] + x[1..] == x;
      }
      FindAfter(t, i + 1, x[1..], stops);
    }
  }

  // ----- what is written is scanned -----

  /** Characters of one byte, and none of those that end what is being read. */
  predicate Plain(x: string, stops: string) {
    forall k :: 0 <= k < |x| ==> x[k] !in stops && x[k] as int < 128
  }

  predicate PlainPairs(pairs: Pairs) {
    forall k :: 0 <= k < |pairs| ==> Plain(pairs[k].0, "=") && Plain(pairs[k].1, "\"")
  }

  predicate PlainName(x: string) {
    x != "" && Plain(x, " />")
  }

  predicate PlainTag(tag: Tag) {
    PlainName(tag.name) && (tag.Close? || PlainPairs(tag.attrs))
  }

  function PairsText(pairs: Pairs): string {
    if pairs == [] then "" else AttrText(pairs[0].0, pairs[0].1) + PairsText(pairs[1..])
  }

  function TagText(tag: Tag): string {
    match tag
    case Open(name, attrs) => "<" + name + PairsText(attrs) + ">"
    case Closed(name, attrs) => "<" + name + PairsText(attrs) + "/>"
    case Close(name) => "</" + name + ">"
  }

  function TagsText(tags: seq<Tag>): string {
    if tags == [] then "" else TagText(tags[0]) + TagsText(tags[1..])
  }

  function AttrText(name: string, value: string): (x: string)
    ensures |x| == 4 + |name| + |value|
  {
    " " + name + "=\"" + value + "\""
  }

  /** A name and a value as they lie, and where each ends. */
  predicate AttrLies(t: string, i: nat, name: string, value: string) {
    var e := i + 1 + |name|;
    && e + 3 + |value| <= |t| && t[i] == ' ' && Lies(t, i + 1, name) && t[e] == '=' && t[e + 1] == '"'
    && Lies(t, e + 2, value) && t[e + 2 + |value|] == '"'
  }

  lemma AttrParts(t: string, i: nat, name: string, value: string)
    requires Lies(t, i, AttrText(name, value))
    ensures AttrLies(t, i, name, value)
  {
    LiesApart(t, i, " " + name + "=\"" + value, "\"");
    LiesApart(t, i, " " + name + "=\"", value);
    LiesApart(t, i, " " + name, "=\"");
    LiesApart(t, i, " ", name);
    var e := i + 1 + |name|;
    CharLies(t, i, " ", 0);
    CharLies(t, e, "=\"", 0);
    CharLies(t, e, "=\"", 1);
    CharLies(t, e + 2 + |value|, "\"", 0);
  }

  lemma AttrIsScanned(t: string, i: nat, name: string, value: string)
    requires Plain(name, "=") && Plain(value, "\"") && AttrLies(t, i, name, value)
    ensures
      var e := i + 1 + |name|;
      Find(t, i + 1, "=") == e && Find(t, e + 2, "\"") == e + 2 + |value|
  {
    FindAfter(t, i + 1, name, "=");
    FindAfter(t, i + 3 + |name|, value, "\"");
  }

  lemma {:induction false} AttrStep(t: string, i: nat, name: string, value: string, rest: Pairs, end: nat)
    requires Plain(name, "=") && Plain(value, "\"") && AttrLies(t, i, name, value)
    requires AttrsAt(t, i + 4 + |name| + |value|) == Some((rest, end))
    ensures AttrsAt(t, i) == Some(([(name, value)] + rest, end))
  {
    AttrIsScanned(t, i, name, value);
  }

  lemma {:induction false} PairsAreScanned(t: string, i: nat, pairs: Pairs, end: nat)
    requires PlainPairs(pairs) && Lies(t, i, PairsText(pairs))
    requires end == i + |PairsText(pairs)| < |t| && t[end] != ' '
    ensures AttrsAt(t, i) == Some((pairs, end))
    decreases |pairs|
  {
    if pairs != [] {
      var name, value := pairs[0].0, pairs[0].1;
      LiesApart(t, i, AttrText(name, value), PairsText(pairs[1..]));
      AttrParts(t, i, name, value);
      PairsAreScanned(t, i + 4 + |name| + |value|, pairs[1..], end);
      AttrStep(t, i, name, value, pairs[1..], end);
      assert [(name, value)] + pairs[1..] == pairs;
    }
  }

  lemma CloseIsScanned(t: string, i: nat, name: string, next: nat)
    requires PlainName(name) && Lies(t, i, "</" + name + ">") && next == i + |"</" + name + ">"|
    ensures i < |t| && TagAt(t, i) == Some((Close(name), next))
  {
    LiesApart(t, i, "</" + name, ">");
    LiesApart(t, i, "</", name);
    CharLies(t, i, "</", 0);
    CharLies(t, i, "</", 1);
    CharLies(t, i + 2 + |name|, ">", 0);
    FindAfter(t, i + 2, name, ">");
  }

  /** A name, its attributes from `e` to `j`, and what ends the tag. */
  predicate HeadLies(t: string, i: nat, name: string, pairs: Pairs, e: nat, j: nat) {
    && i < e <= j < |t| && t[i] == '<' && Lies(t, i + 1, name) && e == i + 1 + |name|
    && Lies(t, e, PairsText(pairs)) && j == e + |PairsText(pairs)|
  }

  /** What follows a name is a stop: a space before attributes, or the end of the tag. */
  lemma {:induction false} NameStops(t: string, pairs: Pairs, e: nat, j: nat)
    requires e <= j < |t| && Lies(t, e, PairsText(pairs)) && j == e + |PairsText(pairs)| && (t[j] == '>' || t[j] == '/')
    ensures t[e] == ' ' || t[e] == '>' || t[e] == '/'
  {
    if pairs != [] {
      assert AttrText(pairs[0].0, pairs[0].1)[0] == ' ';
      CharLies(t, e, PairsText(pairs), 0);
    }
  }

  lemma NameIsFound(t: string, i: nat, name: string, e: nat)
    requires PlainName(name) && Lies(t, i, name) && e == i + |name| < |t|
    requires t[e] == ' ' || t[e] == '>' || t[e] == '/'
    ensures t[i] != '/' && Find(t, i, " />") == e && t[i..e] == name
  {
    CharLies(t, i, name, 0);
    assert " />"[0] == ' ' && " />"[1] == '/' && " />"[2] == '>';
    FindAfter(t, i, name, " />");
  }

  lemma {:induction false} HeadIsScanned(t: string, i: nat, name: string, pairs: Pairs, e: nat, j: nat)
    requires PlainName(name) && PlainPairs(pairs) && HeadLies(t, i, name, pairs, e, j) && (t[j] == '>' || t[j] == '/')
    ensures TagAt(t, i) == EndOfTag(t, name, pairs, j)
  {
    NameStops(t, pairs, e, j);
    NameIsFound(t, i + 1, name, e);
    PairsAreScanned(t, e, pairs, j);
  }

  lemma EndIsScanned(t: string, name: string, pairs: Pairs, j: nat, end: string)
    requires (end == ">" || end == "/>") && Lies(t, j, end)
    ensures (t[j] == '>' || t[j] == '/') && EndOfTag(t, name, pairs, j) ==
      Some((if end == ">" then Open(name, pairs) else Closed(name, pairs), j + |end|))
  {
    CharLies(t, j, end, 0);
    if end == "/>" {
      CharLies(t, j, end, 1);
    }
  }

  lemma HeadIsTag(t: string, i: nat, name: string, pairs: Pairs, e: nat, j: nat, end: string)
    requires PlainName(name) && PlainPairs(pairs) && HeadLies(t, i, name, pairs, e, j)
    requires (end == ">" || end == "/>") && Lies(t, j, end)
    ensures TagAt(t, i) == Some((if end == ">" then Open(name, pairs) else Closed(name, pairs), j + |end|))
  {
    EndIsScanned(t, name, pairs, j, end);
    HeadIsScanned(t, i, name, pairs, e, j);
  }

  lemma HeadParts(t: string, i: nat, name: string, pairs: Pairs, end: string)
    requires end != "" && Lies(t, i, "<" + name + PairsText(pairs) + end)
    ensures
      var e := i + 1 + |name|;
      var j := e + |PairsText(pairs)|;
      && HeadLies(t, i, name, pairs, e, j) && Lies(t, j, end)
      && j + |end| == i + |"<" + name + PairsText(pairs) + end|
  {
    var text := PairsText(pairs);
    LiesApart(t, i, "<" + name + text, end);
    LiesApart(t, i, "<" + name, text);
    LiesApart(t, i, "<", name);
    CharLies(t, i, "<", 0);
  }

  lemma HeadAndEnd(t: string, i: nat, name: string, pairs: Pairs, end: string, next: nat)
    requires PlainName(name) && PlainPairs(pairs) && (end == ">" || end == "/>")
    requires Lies(t, i, "<" + name + PairsText(pairs) + end) && next == i + |"<" + name + PairsText(pairs) + end|
    ensures i < |t| && TagAt(t, i) == Some((if end == ">" then Open(name, pairs) else Closed(name, pairs), next))
  {
    HeadParts(t, i, name, pairs, end);
    HeadIsTag(t, i, name, pairs, i + 1 + |name|, i + 1 + |name| + |PairsText(pairs)|, end);
  }

  lemma TagIsScanned(t: string, i: nat, tag: Tag, next: nat)
    requires PlainTag(tag) && Lies(t, i, TagText(tag)) && next == i + |TagText(tag)|
    ensures i < |t| && TagAt(t, i) == Some((tag, next))
  {
    match tag {
      case Open(name, pairs) => HeadAndEnd(t, i, name, pairs, ">", next);
      case Closed(name, pairs) => HeadAndEnd(t, i, name, pairs, "/>", next);
      case Close(name) => CloseIsScanned(t, i, name, next);
    }
  }

  predicate PlainTags(tags: seq<Tag>) {
    forall k :: 0 <= k < |tags| ==> PlainTag(tags[k])
  }

  lemma RestLies(t: string, i: nat, x: string, y: string)
    requires i <= |t| && t[i..] == x + y
    ensures Lies(t, i, x) && i + |x| <= |t| && t[i + |x|..] == y
  {
    assert |t[i..]| == |x| + |y|;
    assert t[i..i + |x|] == t[i..][..|x|] && t[i + |x|..] == t[i..][|x|..];
  }

  lemma {:induction false} OneMoreTag(t: string, i: nat, tag: Tag, next: nat, rest: seq<Tag>)
    requires i < |t| && TagAt(t, i) == Some((tag, next)) && TagsAt(t, next) == Some(rest)
    ensures TagsAt(t, i) == Some([tag] + rest)
  {
  }

  lemma {:induction false} FirstIsScanned(t: string, i: nat, tag: Tag, next: nat, rest: seq<Tag>)
    requires PlainTag(tag) && Lies(t, i, TagText(tag)) && next == i + |TagText(tag)| && TagsAt(t, next) == Some(rest)
    ensures TagsAt(t, i) == Some([tag] + rest)
  {
    TagIsScanned(t, i, tag, next);
    OneMoreTag(t, i, tag, next, rest);
  }

  lemma {:induction false} TextStep(t: string, i: nat, tags: seq<Tag>, next: nat)
    requires tags != [] && PlainTags(tags) && i <= |t| && t[i..] == TagsText(tags) && next == i + |TagText(tags[0])|
    ensures next <= |t| && t[next..] == TagsText(tags[1..]) && Lies(t, i, TagText(tags[0]))
  {
    RestLies(t, i, TagText(tags[0]), TagsText(tags[1..]));
  }

  /** Every text of plain tags is scanned to those tags. */
  lemma {:induction false} TagsAreScanned(t: string, i: nat, tags: seq<Tag>)
    requires PlainTags(tags) && i <= |t| && t[i..] == TagsText(tags)
    ensures TagsAt(t, i) == Some(tags)
    decreases |tags|
  {
    if tags == [] {
      assert |t[i..]| == 0;
    } else {
      var next := i + |TagText(tags[0])|;
      TextStep(t, i, tags, next);
      TagsAreScanned(t, next, tags[1..]);
      FirstIsScanned(t, i, tags[0], next, tags[1..]);
      assert [tags[0]] + tags[1..] == tags;
    }
  }

  // ----- the stream of a document -----

  predicate Low(x: string) {
    forall k :: 0 <= k < |x| ==> x[k] as int < 128
  }

  lemma LowJoin(x: string, y: string)
    requires Low(x) && Low(y)
    ensures Low(x + y)
  {
  }

  lemma {:induction false} PairsLow(pairs: Pairs)
    requires PlainPairs(pairs)
    ensures Low(PairsText(pairs))
    decreases |pairs|
  {
    if pairs != [] {
      PairsLow(pairs[1..]);
      assert Low(pairs[0].0) && Low(pairs[0].1);
      LowJoin(AttrText(pairs[0].0, pairs[0].1), PairsText(pairs[1..]));
    }
  }

  lemma TagLow(tag: Tag)
    requires PlainTag(tag)
    ensures Low(TagText(tag))
  {
    assert Low(tag.name);
    match tag {
      case Open(name, pairs) => PairsLow(pairs);
      case Closed(name, pairs) => PairsLow(pairs);
      case Close(name) =>
    }
  }

  lemma {:induction false} TagsLow(tags: seq<Tag>)
    requires PlainTags(tags)
    ensures Low(TagsText(tags))
    decreases |tags|
  {
    if tags != [] {
      TagLow(tags[0]);
      TagsLow(tags[1..]);
      LowJoin(TagText(tags[0]), TagsText(tags[1..]));
    }
  }

  lemma CharactersOfAscii(x: string)
    requires Low(x)
    ensures Characters(Ascii(x)) == x
  {
  }

  lemma StreamHead(text: string, b: Bytes)
    requires b == Le16(4) + Le16(4) + Le32(0x40) + Ascii(DECLARATION + text)
    ensures |b| >= 8 && b[..8] == [4, 0, 4, 0, 0x40, 0, 0, 0] && b[8..] == Ascii(XML_DECLARATION + text)
  {
    var head := Le16(4) + Le16(4) + Le32(0x40);
    FourBytes(0x40);
    assert head == [4, 0, 4, 0, 0x40, 0, 0, 0];
    Ends(head, Ascii(DECLARATION + text));
  }

  lemma LowDeclaration()
    ensures Low(XML_DECLARATION)
  {
    LowJoin("<?xml version=\"1.0\"", " encoding=\"UTF-8\"");
    LowJoin("<?xml version=\"1.0\"" + " encoding=\"UTF-8\"", " standalone=\"yes\"?>\r\n");
  }

  /** Any plain tags, written as a stream, are the tags found in it. */
  lemma StreamIsScanned(tags: seq<Tag>, b: Bytes)
    requires PlainTags(tags) && b == Le16(4) + Le16(4) + Le32(0x40) + Ascii(DECLARATION + TagsText(tags))
    ensures Tags(b) == Some(tags)
  {
    var text := TagsText(tags);
    var t := XML_DECLARATION + text;
    StreamHead(text, b);
    TagsLow(tags);
    LowDeclaration();
    LowJoin(XML_DECLARATION, text);
    CharactersOfAscii(t);
    assert t[..|XML_DECLARATION|] == XML_DECLARATION && t[|XML_DECLARATION|..] == text;
    TagsAreScanned(t, |XML_DECLARATION|, tags);
  }
}
