/**
 Section 2.3.4.10 of [MS-OFFCRYPTO]: exactly one password key encryptor, beside any
 number of certificate ones that share its element name.
 */
module KeyEncryptors {
  import opened Errors
  import opened Crypto
  import opened EncryptionInfo
  import opened AgileParser

  lemma {:induction false} RunAppend(p: Crypto, st: ParseState, a: seq<XmlEvent>, b: seq<XmlEvent>)
    ensures Run(p, st, a + b) ==
      match Run(p, st, a)
      case Ok(mid) => Run(p, mid, b)
      case Err(e) => Err(e)
    decreases |a|
  {
    if a == [] {
      assert a + b == b;
    } else {
      assert (a + b)[0] == a[0] && (a + b)[1..] == a[1..] + b;
      var next := Step(p, st, a[0]);
      if next.Ok? {
        RunAppend(p, next.value, a[1..], b);
      }
    }
  }

  // ----- certificate blocks -----

  /** Inside a certificate wrapper: anything but key data, integrity and another wrapper. */
  predicate CertificateBody(events: seq<XmlEvent>) {
    forall i :: 0 <= i < |events| ==>
      match events[i]
      case Start(element, _) => element == EncryptedKey || element.OtherElement?
      case Empty(element, _) => element == EncryptedKey || element.OtherElement?
      case End(element) => element != KeyEncryptor
      case Text => true
      case Malformed => false
  }

  /** `<keyEncryptor uri="…certificate">` … `</keyEncryptor>`, the wrapper not self-closing. */
  function CertificateBlock(attrs: seq<Attr>, body: seq<XmlEvent>): seq<XmlEvent> {
    [Start(KeyEncryptor, attrs)] + body + [End(KeyEncryptor)]
  }

  predicate NamesCertificate(attrs: seq<Attr>) {
    exists i :: 0 <= i < |attrs| && LastUriAt(attrs, i)
  }

  /** The last `uri` is at `i`, and it is the certificate one. */
  predicate LastUriAt(attrs: seq<Attr>, i: nat)
    requires i < |attrs|
  {
    attrs[i] == Attr(Uri, URI_CERTIFICATE) && forall j :: i < j < |attrs| ==> attrs[j].key != Uri
  }

  /** Whether a body holds a certificate's own `encryptedKey`. */
  predicate HoldsKey(body: seq<XmlEvent>) {
    exists i :: 0 <= i < |body| && (body[i].Start? || body[i].Empty?) && body[i].element == EncryptedKey
  }

  /** A state, with "a certificate encryptor was seen" added when `seen`. */
  function Mark(st: ParseState, seen: bool): ParseState {
    st.(sawCertificate := st.sawCertificate || seen)
  }

  function MarkRun(r: Result<ParseState>, seen: bool): Result<ParseState> {
    match r
    case Ok(st) => Ok(Mark(st, seen))
    case Err(_) => r
  }

  lemma UrisDiffer()
    ensures URI_PASSWORD != URI_CERTIFICATE
  {
    assert |URI_PASSWORD| != |URI_CERTIFICATE|;
  }

  lemma {:induction false} WrapperNamesCertificate(p: Crypto, st: ParseState, attrs: seq<Attr>, k: nat)
    requires k <= |attrs|
    requires
      || (st.current == Certificate && forall j :: k <= j < |attrs| ==> attrs[j].key != Uri)
      || exists i :: k <= i < |attrs| && LastUriAt(attrs, i)
    ensures AttrsFrom(p, st, KeyEncryptor, attrs, k) == Ok(st.(current := Certificate))
    decreases |attrs| - k
  {
    if k < |attrs| {
      UrisDiffer();
      WrapperNamesCertificate(p, st.(current := UriKind(st.current, attrs[k])), attrs, k + 1);
    }
  }

  lemma {:induction false} OtherAttrsChangeNothing(p: Crypto, st: ParseState, element: Element, attrs: seq<Attr>,
                                                   k: nat)
    requires element.OtherElement? && k <= |attrs|
    ensures AttrsFrom(p, st, element, attrs, k) == Ok(st)
    decreases |attrs| - k
  {
    if k < |attrs| {
      OtherAttrsChangeNothing(p, st, element, attrs, k + 1);
    }
  }

  lemma {:induction false} BodyOnlyMarks(p: Crypto, st: ParseState, body: seq<XmlEvent>)
    requires st.current == Certificate && CertificateBody(body)
    ensures Run(p, st, body) == Ok(Mark(st, HoldsKey(body)))
    decreases |body|
  {
    if body != [] {
      var event, rest := body[0], body[1..];
      var isKey := (event.Start? || event.Empty?) && event.element == EncryptedKey;
      if (event.Start? || event.Empty?) && !isKey {
        OtherAttrsChangeNothing(p, st, event.element, event.attrs, 0);
      }
      assert Step(p, st, event) == Ok(Mark(st, isKey));
      BodyOnlyMarks(p, Mark(st, isKey), rest);
      assert HoldsKey(body) <==> isKey || HoldsKey(rest);
    }
  }

  lemma BlockOnlyMarks(p: Crypto, st: ParseState, attrs: seq<Attr>, body: seq<XmlEvent>)
    requires st.current == Unstated && NamesCertificate(attrs) && CertificateBody(body)
    ensures Run(p, st, CertificateBlock(attrs, body)) == Ok(Mark(st, HoldsKey(body)))
  {
    var head, tail := [Start(KeyEncryptor, attrs)], [End(KeyEncryptor)];
    WrapperNamesCertificate(p, st, attrs, 0);
    assert head[1..] == [] && tail[1..] == [];
    var inside := st.(current := Certificate);
    assert Run(p, st, head) == Ok(inside);
    BodyOnlyMarks(p, inside, body);
    RunAppend(p, st, head, body);
    RunAppend(p, st, head + body, tail);
  }

  lemma {:induction false} AttrsKeepMark(p: Crypto, st: ParseState, seen: bool, element: Element, attrs: seq<Attr>,
                                         k: nat)
    requires k <= |attrs|
    ensures AttrsFrom(p, Mark(st, seen), element, attrs, k) == MarkRun(AttrsFrom(p, st, element, attrs, k), seen)
    decreases |attrs| - k
  {
    if k < |attrs| {
      var next := AttrStep(p, st, element, attrs[k]);
      assert AttrStep(p, Mark(st, seen), element, attrs[k]) == MarkRun(next, seen);
      if next.Ok? {
        AttrsKeepMark(p, next.value, seen, element, attrs, k + 1);
      }
    }
  }

  lemma StepKeepsMark(p: Crypto, st: ParseState, seen: bool, event: XmlEvent)
    ensures Step(p, Mark(st, seen), event) == MarkRun(Step(p, st, event), seen)
  {
    if event.Start? || event.Empty? {
      var opening := OpenElement(st, event.element, event.attrs);
      if opening.Ok? {
        AttrsKeepMark(p, opening.value.0, seen, event.element, event.attrs, 0);
      }
    }
  }

  /** The mark is carried through every event and changes nothing else on the way. */
  lemma {:induction false} RunKeepsMark(p: Crypto, st: ParseState, seen: bool, events: seq<XmlEvent>)
    ensures Run(p, Mark(st, seen), events) == MarkRun(Run(p, st, events), seen)
    decreases |events|
  {
    if events != [] {
      StepKeepsMark(p, st, seen, events[0]);
      var next := Step(p, st, events[0]);
      if next.Ok? {
        RunKeepsMark(p, next.value, seen, events[1..]);
      }
    }
  }

  /**
   A certificate block, inserted or removed anywhere outside a wrapper, changes neither
   the parameters nor the error of a document that holds a password encryptor. Where no
   password encryptor is seen it matters only by turning the answer into "certificate
   only".
   */
  lemma CertificatesNeverInterfere(
    p: Crypto, before: seq<XmlEvent>, attrs: seq<Attr>, body: seq<XmlEvent>, after: seq<XmlEvent>)
    requires NamesCertificate(attrs) && CertificateBody(body)
    requires var r := Run(p, INITIAL, before); r.Ok? ==> r.value.current == Unstated
    ensures
      var without, with := before + after, before + CertificateBlock(attrs, body) + after;
      var r := Run(p, INITIAL, without);
      Parse(p, with) ==
        if r.Ok? && !r.value.sawPassword && HoldsKey(body) then Err(XmlParse(OnlyCertificateEncryptors))
        else Parse(p, without)
  {
    var block := CertificateBlock(attrs, body);
    RunAppend(p, INITIAL, before, after);
    RunAppend(p, INITIAL, before, block);
    RunAppend(p, INITIAL, before + block, after);
    var r := Run(p, INITIAL, before);
    if r.Ok? {
      BlockOnlyMarks(p, r.value, attrs, body);
      RunKeepsMark(p, r.value, HoldsKey(body), after);
      var end := Run(p, r.value, after);
      if end.Ok? {
        MarkOnlyTurns(end.value, HoldsKey(body));
      }
    }
  }

  /** What a mark does to the answer: nothing once a password encryptor was seen. */
  lemma MarkOnlyTurns(st: ParseState, seen: bool)
    ensures Finish(Mark(st, seen)) ==
      if !st.sawPassword && seen then Err(XmlParse(OnlyCertificateEncryptors)) else Finish(st)
  {
  }

  // ----- exactly one password encryptor -----

  /** The encryptor in force after `event`, from wrappers alone. */
  function KindAfter(kind: Encryptor, event: XmlEvent): Encryptor {
    match event
    case Start(element, attrs) => if element == KeyEncryptor then KindOf(Unstated, attrs, 0) else kind
    case Empty(element, attrs) => if element == KeyEncryptor then KindOf(Unstated, attrs, 0) else kind
    case End(element) => if element == KeyEncryptor then Unstated else kind
    case _ => kind
  }

  function KindOf(kind: Encryptor, attrs: seq<Attr>, k: nat): Encryptor
    requires k <= |attrs|
    decreases |attrs| - k
  {
    if k == |attrs| then kind else KindOf(UriKind(kind, attrs[k]), attrs, k + 1)
  }

  /** How many of the `encryptedKey` elements of a document are password ones. */
  function PasswordCount(kind: Encryptor, events: seq<XmlEvent>): nat
    decreases |events|
  {
    if events == [] then 0
    else
      var event := events[0];
      var isPassword :=
        (event.Start? || event.Empty?) && event.element == EncryptedKey && !IsCertificate(kind, event.attrs);
      (if isPassword then 1 else 0) + PasswordCount(KindAfter(kind, event), events[1..])
  }

  lemma {:induction false} AttrsKeepCounts(p: Crypto, st: ParseState, element: Element, attrs: seq<Attr>, k: nat)
    requires k <= |attrs|
    ensures var r := AttrsFrom(p, st, element, attrs, k);
      r.Ok? ==>
        && r.value.sawPassword == st.sawPassword
        && r.value.current == (if element == KeyEncryptor then KindOf(st.current, attrs, k) else st.current)
        && (element != EncryptedKey ==> r.value.password == st.password)
    decreases |attrs| - k
  {
    if k < |attrs| {
      var next := AttrStep(p, st, element, attrs[k]);
      if next.Ok? {
        AttrsKeepCounts(p, next.value, element, attrs, k + 1);
      }
    }
  }

  lemma {:induction false} RunCounts(p: Crypto, st: ParseState, events: seq<XmlEvent>)
    requires !st.sawPassword ==> st.password == NO_PASSWORD
    ensures var r := Run(p, st, events);
      r.Ok? ==>
        && (if r.value.sawPassword then 1 else 0)
          == (if st.sawPassword then 1 else 0) + PasswordCount(st.current, events)
        && (!r.value.sawPassword ==> r.value.password == NO_PASSWORD)
    decreases |events|
  {
    if events != [] {
      var event := events[0];
      if event.Start? || event.Empty? {
        var opening := OpenElement(st, event.element, event.attrs);
        if opening.Ok? {
          AttrsKeepCounts(p, opening.value.0, event.element, event.attrs, 0);
        }
      }
      var next := Step(p, st, event);
      if next.Ok? {
        assert next.value.current == KindAfter(st.current, event);
        RunCounts(p, next.value, events[1..]);
      }
    }
  }

  /**
   A document is accepted only with exactly one password encryptor: two are refused in
   every order and with anything between them, and so is none.
   */
  lemma ExactlyOnePasswordEncryptor(p: Crypto, events: seq<XmlEvent>)
    ensures Parse(p, events).Ok? ==> PasswordCount(Unstated, events) == 1
  {
    RunCounts(p, INITIAL, events);
  }

  /** A second password `encryptedKey` is refused as such the moment it is reached. */
  lemma SecondPasswordIsDuplicate(p: Crypto, before: seq<XmlEvent>, key: XmlEvent, after: seq<XmlEvent>)
    requires key.Start? || key.Empty?
    requires key.element == EncryptedKey
    requires var r := Run(p, INITIAL, before);
      r.Ok? && r.value.sawPassword && !IsCertificate(r.value.current, key.attrs)
    ensures Parse(p, before + [key] + after) == Err(BadParameters(PasswordKeyEncryptor, Duplicate))
  {
    RunAppend(p, INITIAL, before, [key]);
    RunAppend(p, INITIAL, before + [key], after);
  }

  // ----- self-closing wrappers -----

  /** A `keyEncryptor` tag of any form: the kind in force is dropped. */
  predicate ResetsKind(event: XmlEvent) {
    (event.Start? || event.Empty? || event.End?) && event.element == KeyEncryptor
  }

  /** An `encryptedKey` that only the kind in force can make a certificate's. */
  predicate UnmarkedKey(event: XmlEvent) {
    (event.Start? || event.Empty?) && event.element == EncryptedKey && !HasCertificateAttr(event.attrs)
  }

  /** Whether a kind left in force reaches an unmarked key before it is dropped. */
  predicate Exposed(events: seq<XmlEvent>) {
    events != [] && !ResetsKind(events[0]) && (UnmarkedKey(events[0]) || Exposed(events[1..]))
  }

  /** The same state but for the kind in force. */
  predicate SameButKind(a: ParseState, b: ParseState) {
    a == b.(current := a.current)
  }

  predicate SameResultButKind(a: Result<ParseState>, b: Result<ParseState>) {
    if a.Ok? then b.Ok? && SameButKind(a.value, b.value) else a == b
  }

  lemma {:induction false} AttrsIgnoreKind(p: Crypto, a: ParseState, b: ParseState, element: Element, attrs: seq<Attr>,
                                           k: nat)
    requires SameButKind(a, b) && element != KeyEncryptor && k <= |attrs|
    ensures
      var r, s := AttrsFrom(p, a, element, attrs, k), AttrsFrom(p, b, element, attrs, k);
      SameResultButKind(r, s) && (r.Ok? ==> r.value.current == a.current && s.value.current == b.current)
    decreases |attrs| - k
  {
    if k < |attrs| {
      var next, other := AttrStep(p, a, element, attrs[k]), AttrStep(p, b, element, attrs[k]);
      assert SameResultButKind(next, other);
      if next.Ok? {
        AttrsIgnoreKind(p, next.value, other.value, element, attrs, k + 1);
      }
    }
  }

  /** An event that neither resets the kind nor is exposed to it does the same under both. */
  lemma StepIgnoresKind(p: Crypto, certificate: ParseState, unstated: ParseState, event: XmlEvent)
    requires certificate.current == Certificate && unstated.current == Unstated && SameButKind(certificate, unstated)
    requires !UnmarkedKey(event)
    ensures
      var r, s := Step(p, certificate, event), Step(p, unstated, event);
      && SameResultButKind(r, s)
      && (r.Ok? ==> r == s || (r.value.current == Certificate && s.value.current == Unstated))
  {
    if event.Start? || event.Empty? {
      var opening := OpenElement(certificate, event.element, event.attrs);
      var other := OpenElement(unstated, event.element, event.attrs);
      if event.element != KeyEncryptor && opening.Ok? {
        AttrsIgnoreKind(p, opening.value.0, other.value.0, event.element, event.attrs, 0);
      }
    }
  }

  lemma KindResets(p: Crypto, a: ParseState, b: ParseState, event: XmlEvent)
    requires SameButKind(a, b)
    requires ResetsKind(event)
    ensures Step(p, a, event) == Step(p, b, event)
  {
    assert a.(current := Unstated) == b.(current := Unstated);
  }

  lemma {:induction false} UnexposedIgnoresKind(p: Crypto, certificate: ParseState, unstated: ParseState,
                                                events: seq<XmlEvent>)
    requires certificate.current == Certificate && unstated.current == Unstated && SameButKind(certificate, unstated)
    requires !Exposed(events)
    ensures SameResultButKind(Run(p, certificate, events), Run(p, unstated, events))
    decreases |events|
  {
    if events != [] {
      var event := events[0];
      if ResetsKind(event) {
        KindResets(p, certificate, unstated, event);
      } else {
        StepIgnoresKind(p, certificate, unstated, event);
        var next, other := Step(p, certificate, event), Step(p, unstated, event);
        if next.Ok? && next != other {
          UnexposedIgnoresKind(p, next.value, other.value, events[1..]);
        }
      }
    }
  }

  /** A state whose password element was taken for a certificate's. */
  predicate Displaced(with: ParseState, without: ParseState) {
    && without.sawPassword && !with.sawPassword && with.sawCertificate
    && with.keyData == without.keyData
    && with.integrity == without.integrity && with.sawIntegrity == without.sawIntegrity
    && (with.current == without.current || (with.current == Certificate && without.current == Unstated))
  }

  lemma {:induction false} AttrsKeepDisplaced(p: Crypto, with: ParseState, without: ParseState, element: Element,
                                              attrs: seq<Attr>, k: nat)
    requires Displaced(with, without) && element != EncryptedKey && k <= |attrs|
    requires element == KeyEncryptor ==> with.current == without.current
    requires AttrsFrom(p, without, element, attrs, k).Ok?
    ensures AttrsFrom(p, with, element, attrs, k).Ok?
    ensures Displaced(AttrsFrom(p, with, element, attrs, k).value, AttrsFrom(p, without, element, attrs, k).value)
    decreases |attrs| - k
  {
    if k < |attrs| {
      var next, other := AttrStep(p, with, element, attrs[k]), AttrStep(p, without, element, attrs[k]);
      AttrsKeepDisplaced(p, next.value, other.value, element, attrs, k + 1);
    }
  }

  lemma StepKeepsDisplaced(p: Crypto, with: ParseState, without: ParseState, event: XmlEvent)
    requires Displaced(with, without) && Step(p, without, event).Ok?
    ensures Step(p, with, event).Ok? && Displaced(Step(p, with, event).value, Step(p, without, event).value)
  {
    if event.Start? || event.Empty? {
      var opening := OpenElement(with, event.element, event.attrs);
      var other := OpenElement(without, event.element, event.attrs);
      if event.element != EncryptedKey {
        AttrsKeepDisplaced(p, opening.value.0, other.value.0, event.element, event.attrs, 0);
      }
    }
  }

  lemma {:induction false} RunKeepsDisplaced(p: Crypto, with: ParseState, without: ParseState, events: seq<XmlEvent>)
    requires Displaced(with, without) && Run(p, without, events).Ok?
    ensures Run(p, with, events).Ok? && Displaced(Run(p, with, events).value, Run(p, without, events).value)
    decreases |events|
  {
    if events != [] {
      StepKeepsDisplaced(p, with, without, events[0]);
      RunKeepsDisplaced(p, Step(p, with, events[0]).value, Step(p, without, events[0]).value, events[1..]);
    }
  }

  lemma {:induction false} ExposedIsDisplaced(p: Crypto, certificate: ParseState, unstated: ParseState,
                                              events: seq<XmlEvent>)
    requires certificate.current == Certificate && unstated.current == Unstated && SameButKind(certificate, unstated)
    requires Exposed(events) && Run(p, unstated, events).Ok?
    ensures Run(p, certificate, events).Ok?
    ensures Displaced(Run(p, certificate, events).value, Run(p, unstated, events).value)
    decreases |events|
  {
    var event := events[0];
    var next, other := Step(p, certificate, event), Step(p, unstated, event);
    if UnmarkedKey(event) {
      AttrsKeepCounts(p, unstated.(sawPassword := true), EncryptedKey, event.attrs, 0);
      AttrsKeepOthers(p, unstated.(sawPassword := true), event.attrs, 0);
      RunKeepsDisplaced(p, next.value, other.value, events[1..]);
    } else {
      StepIgnoresKind(p, certificate, unstated, event);
      KindSurvives(p, certificate, event);
      KindSurvives(p, unstated, event);
      ExposedIsDisplaced(p, next.value, other.value, events[1..]);
    }
  }

  lemma {:induction false} AttrsKeepOthers(p: Crypto, st: ParseState, attrs: seq<Attr>, k: nat)
    requires k <= |attrs|
    ensures var r := AttrsFrom(p, st, EncryptedKey, attrs, k);
      r.Ok? ==> r.value == st.(password := r.value.password)
    decreases |attrs| - k
  {
    if k < |attrs| {
      var next := AttrStep(p, st, EncryptedKey, attrs[k]);
      if next.Ok? {
        AttrsKeepOthers(p, next.value, attrs, k + 1);
      }
    }
  }

  lemma KindSurvives(p: Crypto, st: ParseState, event: XmlEvent)
    requires !ResetsKind(event)
    ensures Step(p, st, event).Ok? ==> Step(p, st, event).value.current == st.current
  {
    if event.Start? || event.Empty? {
      var opening := OpenElement(st, event.element, event.attrs);
      if opening.Ok? {
        AttrsKeepCounts(p, opening.value.0, event.element, event.attrs, 0);
      }
    }
  }

  /**
   A self-closing certificate wrapper has no end, so its kind stays in force. Outside a
   wrapper it is harmless to every document, accepted or not, in which no unmarked
   `encryptedKey` is exposed to it; and an accepted document in which one is loses its
   password to it.
   */
  lemma SelfClosingWrapperDisplacesThePassword(p: Crypto, before: seq<XmlEvent>, attrs: seq<Attr>, after: seq<XmlEvent>)
    requires NamesCertificate(attrs)
    requires var r := Run(p, INITIAL, before); r.Ok? ==> r.value.current == Unstated
    ensures
      var without, with := before + after, before + [Empty(KeyEncryptor, attrs)] + after;
      && (!Exposed(after) ==> Parse(p, with) == Parse(p, without))
      && (Exposed(after) && Parse(p, without).Ok? ==> Parse(p, with) == Err(XmlParse(OnlyCertificateEncryptors)))
  {
    var wrapper := [Empty(KeyEncryptor, attrs)];
    RunAppend(p, INITIAL, before, after);
    RunAppend(p, INITIAL, before, wrapper);
    RunAppend(p, INITIAL, before + wrapper, after);
    var r := Run(p, INITIAL, before);
    if r.Ok? {
      WrapperLeavesItsKind(p, r.value, attrs);
      var certificate := r.value.(current := Certificate);
      if !Exposed(after) {
        UnexposedIgnoresKind(p, certificate, r.value, after);
      } else if Parse(p, before + after).Ok? {
        ExposedIsDisplaced(p, certificate, r.value, after);
      }
    }
  }

  lemma WrapperLeavesItsKind(p: Crypto, st: ParseState, attrs: seq<Attr>)
    requires NamesCertificate(attrs) && st.current == Unstated
    ensures Run(p, st, [Empty(KeyEncryptor, attrs)]) == Ok(st.(current := Certificate))
  {
    var wrapper := [Empty(KeyEncryptor, attrs)];
    WrapperNamesCertificate(p, st, attrs, 0);
    assert wrapper[1..] == [] && Step(p, st, wrapper[0]) == Ok(st.(current := Certificate));
  }

  /** For an accepted document, then, the condition is exact. */
  lemma HarmlessExactlyWhenUnexposed(p: Crypto, before: seq<XmlEvent>, attrs: seq<Attr>, after: seq<XmlEvent>)
    requires NamesCertificate(attrs)
    requires var r := Run(p, INITIAL, before); r.Ok? ==> r.value.current == Unstated
    requires Parse(p, before + after).Ok?
    ensures Parse(p, before + [Empty(KeyEncryptor, attrs)] + after) == Parse(p, before + after) <==> !Exposed(after)
  {
    SelfClosingWrapperDisplacesThePassword(p, before, attrs, after);
  }

  /** XML that is not well formed refuses the document, whatever is read before it or would be after. */
  lemma MalformedIsRefused(p: Crypto, before: seq<XmlEvent>, after: seq<XmlEvent>)
    ensures
      var r := Run(p, INITIAL, before);
      Parse(p, before + [Malformed] + after) == Err(if r.Ok? then XmlParse(Syntax) else r.error)
  {
    RunAppend(p, INITIAL, before, [Malformed] + after);
    assert before + [Malformed] + after == before + ([Malformed] + after);
    assert ([Malformed] + after)[0] == Malformed;
  }

  /** The last `uri` of a wrapper says what it holds: a password, a certificate, or neither. */
  lemma {:induction false} WrapperByItsUri(p: Crypto, st: ParseState, attrs: seq<Attr>, from: nat, k: nat)
    requires from <= k < |attrs| && attrs[k].key == Uri && forall i :: k < i < |attrs| ==> attrs[i].key != Uri
    ensures AttrsFrom(p, st, KeyEncryptor, attrs, from) == Ok(st.(current :=
      if attrs[k].value == "http://schemas.microsoft.com/" + "office/2006/" + "keyEncryptor/password" then Password
      else if attrs[k].value == "http://schemas.microsoft.com/" + "office/2006/" + "keyEncryptor/certificate" then
        Certificate
      else Unstated))
    decreases |attrs| - from
  {
    var next := st.(current := UriKind(st.current, attrs[from]));
    if from < k {
      WrapperByItsUri(p, next, attrs, from + 1, k);
    } else {
      OthersSayNothing(p, next, attrs, from + 1);
    }
  }

  lemma {:induction false} OthersSayNothing(p: Crypto, st: ParseState, attrs: seq<Attr>, from: nat)
    requires from <= |attrs| && forall i :: from <= i < |attrs| ==> attrs[i].key != Uri
    ensures AttrsFrom(p, st, KeyEncryptor, attrs, from) == Ok(st)
    decreases |attrs| - from
  {
    if from < |attrs| {
      OthersSayNothing(p, st, attrs, from + 1);
    }
  }
}
