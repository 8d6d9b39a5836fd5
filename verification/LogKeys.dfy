/** packages/nouns-webapp/src/utils/logParsing.ts: filters as text keys and back. */
module LogKeys {
  import opened Wrappers

  datatype Topic = One(text: string) | Many(texts: seq<string>) | Any

  datatype EventFilter = EventFilter(address: Option<string>, topics: Option<seq<Topic>>, fromBlock: Option<nat>)

  const NUL: string := ['\0']

  /** `s.split(c)`. */
  function Split(s: string, c: char): (r: seq<string>)
    ensures r != []
  {
    if s == [] then [""]
    else
      var rest := Split(s[1..], c);
      if s[0] == c then [""] + rest else [[s[0]] + rest[0]] + rest[1..]
  }

  /** `parts.join(c)`. */
  function Join(parts: seq<string>, c: char): string {
    if parts == [] then []
    else if |parts| == 1 then parts[0]
    else parts[0] + [c] + Join(parts[1..], c)
  }

  /** A missing or empty topic prints as NUL. */
  function TopicText(topic: Topic): string {
    match topic
    case One(text) => if text == "" then NUL else text
    case Many(texts) => Join(texts, ';')
    case Any => NUL
  }

  function TopicTexts(topics: seq<Topic>): seq<string> {
    if topics == [] then [] else [TopicText(topics[0])] + TopicTexts(topics[1..])
  }

  function FilterToKey(filter: EventFilter): string {
    (if filter.address.Some? then filter.address.value else "") + ":"
    + if filter.topics.Some? then Join(TopicTexts(filter.topics.value), '-') else ""
  }

  function TopicOf(piece: string): Topic {
    var parts := Split(piece, ';');
    if |parts| == 1 then One(parts[0]) else Many(parts)
  }

  function TopicsOf(pieces: seq<string>): seq<Topic> {
    if pieces == [] then [] else [TopicOf(pieces[0])] + TopicsOf(pieces[1..])
  }

  /** None is the exception for a key without a colon. */
  function KeyToFilter(key: string): Option<EventFilter> {
    var pcs := Split(key, ':');
    if |pcs| < 2 then None
    else Some(EventFilter(if pcs[0] == "" then None else Some(pcs[0]), Some(TopicsOf(Split(pcs[1], '-'))), None))
  }

  // ---------- split and join ----------

  lemma {:induction false} JoinSplit(s: string, c: char)
    ensures Join(Split(s, c), c) == s
  {
    if s != [] {
      JoinSplit(s[1..], c);
      var rest := Split(s[1..], c);
      var parts := Split(s, c);
      assert s == [s[0]] + s[1..];
      if s[0] == c {
        assert parts[1..] == rest && parts[0] == "";
        assert [] + [c] + Join(rest, c) == [c] + s[1..];
      } else {
        assert parts[1..] == rest[1..];
        if |rest| > 1 {
          assert ([s[0]] + rest[0]) + [c] + Join(rest[1..], c) == [s[0]] + (rest[0] + [c] + Join(rest[1..], c));
        }
      }
    }
  }

  /** Pieces hold no separator, and no character that the text does not hold. */
  lemma {:induction false} PiecesAreFree(s: string, c: char, d: char)
    requires d == c || d !in s
    ensures forall i :: 0 <= i < |Split(s, c)| ==> d !in Split(s, c)[i]
  {
    if s != [] {
      assert s == [s[0]] + s[1..];
      PiecesAreFree(s[1..], c, d);
    }
  }

  lemma {:induction false} SplitFree(s: string, c: char)
    requires c !in s
    ensures Split(s, c) == [s]
  {
    if s != [] {
      assert s == [s[0]] + s[1..];
      assert s[0] in s;
      SplitFree(s[1..], c);
    }
  }

  lemma {:induction false} SplitFirst(a: string, b: string, c: char)
    requires c !in a
    ensures Split(a + [c] + b, c) == [a] + Split(b, c)
  {
    if a == [] {
      assert [] + [c] + b == [c] + b;
      assert ([c] + b)[1..] == b;
    } else {
      assert a[0] in a;
      var s := a + [c] + b;
      assert s[1..] == a[1..] + [c] + b && s[0] == a[0];
      SplitFirst(a[1..], b, c);
      assert a == [a[0]] + a[1..];
    }
  }

  lemma {:induction false} SplitJoin(parts: seq<string>, c: char)
    requires parts != [] && forall i :: 0 <= i < |parts| ==> c !in parts[i]
    ensures Split(Join(parts, c), c) == parts
  {
    if |parts| == 1 {
      SplitFree(parts[0], c);
    } else {
      SplitJoin(parts[1..], c);
      SplitFirst(parts[0], Join(parts[1..], c), c);
    }
  }

  lemma {:induction false} JoinIsFree(parts: seq<string>, c: char, d: char)
    requires c != d && forall i :: 0 <= i < |parts| ==> d !in parts[i]
    ensures d !in Join(parts, c)
  {
    if |parts| > 1 { JoinIsFree(parts[1..], c, d); }
  }

  // ---------- when a key survives the round trip ----------

  predicate NonEmptyPieces(pieces: seq<string>) {
    forall i :: 0 <= i < |pieces| ==> pieces[i] != ""
  }

  /** Exactly one colon, and between the dashes behind it no empty piece. */
  predicate StableKey(key: string) {
    var pcs := Split(key, ':');
    |pcs| == 2 && NonEmptyPieces(Split(pcs[1], '-'))
  }

  function Shown(piece: string): string {
    if piece == "" then NUL else piece
  }

  function ShownAll(pieces: seq<string>): seq<string> {
    if pieces == [] then [] else [Shown(pieces[0])] + ShownAll(pieces[1..])
  }

  lemma {:induction false} TopicsTextShown(pieces: seq<string>)
    ensures TopicTexts(TopicsOf(pieces)) == ShownAll(pieces)
  {
    if pieces != [] {
      JoinSplit(pieces[0], ';');
      TopicsTextShown(pieces[1..]);
      assert TopicsOf(pieces)[1..] == TopicsOf(pieces[1..]);
    }
  }

  lemma {:induction false} ShownFacts(pieces: seq<string>, c: char)
    ensures |ShownAll(pieces)| == |pieces|
    ensures NonEmptyPieces(pieces) ==> ShownAll(pieces) == pieces
    ensures |Join(ShownAll(pieces), c)| >= |Join(pieces, c)|
    ensures !NonEmptyPieces(pieces) ==> |Join(ShownAll(pieces), c)| > |Join(pieces, c)|
  {
    if pieces != [] {
      var rest := pieces[1..];
      ShownFacts(rest, c);
      assert pieces == [pieces[0]] + rest;
      assert ShownAll(pieces)[1..] == ShownAll(rest);
      assert NonEmptyPieces(pieces) <==> pieces[0] != "" && NonEmptyPieces(rest) by {
        assert forall i :: 0 <= i < |rest| ==> rest[i] == pieces[i + 1];
        if pieces[0] != "" && NonEmptyPieces(rest) {
          forall i | 0 <= i < |pieces| ensures pieces[i] != "" {
            if i > 0 { assert pieces[i] == rest[i - 1]; }
          }
        }
      }
    }
  }

  lemma {:induction false} ShownFree(pieces: seq<string>, d: char)
    requires d != '\0' && forall i :: 0 <= i < |pieces| ==> d !in pieces[i]
    ensures forall i :: 0 <= i < |ShownAll(pieces)| ==> d !in ShownAll(pieces)[i]
  {
    if pieces != [] { ShownFree(pieces[1..], d); }
  }

  /** Parsing a key and printing the filter gives back the key exactly for the stable keys. */
  lemma KeyRoundTripIff(key: string)
    requires KeyToFilter(key).Some?
    ensures FilterToKey(KeyToFilter(key).value) == key <==> StableKey(key)
  {
    var pcs := Split(key, ':');
    var pieces := Split(pcs[1], '-');
    var text := Join(ShownAll(pieces), '-');
    var key' := FilterToKey(KeyToFilter(key).value);
    TopicsTextShown(pieces);
    assert key' == pcs[0] + [':'] + text;
    JoinSplit(key, ':');
    PiecesAreFree(key, ':', ':');
    PiecesAreFree(pcs[1], '-', ':');
    ShownFree(pieces, ':');
    JoinIsFree(ShownAll(pieces), '-', ':');
    SplitFirst(pcs[0], text, ':');
    SplitFree(text, ':');
    JoinSplit(pcs[1], '-');
    ShownFacts(pieces, '-');
    assert key' == key ==> pcs == [pcs[0], text];
    if StableKey(key) {
      assert pcs == [pcs[0], pcs[1]] && pcs[1..] == [pcs[1]];
    }
  }

  /** Address and topics without the key's own separators. */
  predicate SeparatorFree(filter: EventFilter) {
    && (filter.address.Some? ==> ':' !in filter.address.value)
    && (filter.topics.Some? ==>
          forall i :: 0 <= i < |filter.topics.value| ==>
            ':' !in TopicText(filter.topics.value[i]) && '-' !in TopicText(filter.topics.value[i]))
  }

  predicate NonEmptyTopics(filter: EventFilter) {
    filter.topics.Some? && filter.topics.value != [] &&
    forall i :: 0 <= i < |filter.topics.value| ==> TopicText(filter.topics.value[i]) != ""
  }

  lemma {:induction false} TopicTextsFacts(topics: seq<Topic>)
    ensures |TopicTexts(topics)| == |topics|
    ensures forall i :: 0 <= i < |topics| ==> TopicTexts(topics)[i] == TopicText(topics[i])
  {
    if topics != [] { TopicTextsFacts(topics[1..]); }
  }

  // ---------- which filters have stable keys ----------

  /** What one more character in front does to the pieces. */
  function Pushed(x: char, pieces: seq<string>, c: char): seq<string>
    requires pieces != []
  {
    if x == c then [""] + pieces else [[x] + pieces[0]] + pieces[1..]
  }

  lemma SplitCons(x: char, t: string, c: char)
    ensures Split([x] + t, c) == Pushed(x, Split(t, c), c)
  {
    assert ([x] + t)[1..] == t;
  }

  lemma PushedConcat(x: char, front: seq<string>, back: seq<string>, c: char)
    requires front != []
    ensures Pushed(x, front + back, c) == Pushed(x, front, c) + back
  {
    assert (front + back)[0] == front[0] && (front + back)[1..] == front[1..] + back;
  }

  lemma {:induction false} SplitConcat(a: string, b: string, c: char)
    ensures Split(a + [c] + b, c) == Split(a, c) + Split(b, c)
  {
    if a == [] {
      SplitFirst(a, b, c);
    } else {
      var x, rest := a[0], a[1..];
      SplitConcat(rest, b, c);
      SplitCons(x, rest + [c] + b, c);
      SplitCons(x, rest, c);
      PushedConcat(x, Split(rest, c), Split(b, c), c);
      assert a == [x] + rest && a + [c] + b == [x] + (rest + [c] + b);
    }
  }

  lemma SplitOneIff(s: string, c: char)
    ensures |Split(s, c)| == 1 <==> c !in s
  {
    if c !in s {
      SplitFree(s, c);
    }
    if |Split(s, c)| == 1 {
      PiecesAreFree(s, c, c);
      JoinSplit(s, c);
    }
  }

  lemma {:induction false} JoinHolds(parts: seq<string>, c: char, d: char, i: nat)
    requires i < |parts| && d in parts[i]
    ensures d in Join(parts, c)
  {
    if |parts| > 1 && i > 0 { JoinHolds(parts[1..], c, d, i - 1); }
  }

  ghost predicate AllSplitNonEmpty(parts: seq<string>, c: char) {
    forall i :: 0 <= i < |parts| ==> NonEmptyPieces(Split(parts[i], c))
  }

  lemma NonEmptyConcat(a: seq<string>, b: seq<string>)
    ensures NonEmptyPieces(a + b) <==> NonEmptyPieces(a) && NonEmptyPieces(b)
  {
    if NonEmptyPieces(a + b) {
      forall i | 0 <= i < |a| ensures a[i] != "" { assert (a + b)[i] == a[i]; }
      forall i | 0 <= i < |b| ensures b[i] != "" { assert (a + b)[|a| + i] == b[i]; }
    }
  }

  lemma {:induction false} JoinedPiecesIff(parts: seq<string>, c: char)
    requires parts != []
    ensures NonEmptyPieces(Split(Join(parts, c), c)) <==> AllSplitNonEmpty(parts, c)
  {
    if |parts| > 1 {
      var first, rest := parts[0], parts[1..];
      JoinedPiecesIff(rest, c);
      SplitConcat(first, Join(rest, c), c);
      NonEmptyConcat(Split(first, c), Split(Join(rest, c), c));
      assert parts == [first] + rest;
      AllSplitCons(first, rest, c);
    }
  }

  lemma AllSplitCons(first: string, rest: seq<string>, c: char)
    ensures AllSplitNonEmpty([first] + rest, c) <==> NonEmptyPieces(Split(first, c)) && AllSplitNonEmpty(rest, c)
  {
    var all := [first] + rest;
    if AllSplitNonEmpty(all, c) {
      assert all[0] == first;
      forall i | 0 <= i < |rest| ensures NonEmptyPieces(Split(rest[i], c)) { assert all[i + 1] == rest[i]; }
    }
  }

  /** A topic text that neither ends the topic part nor leaves an empty piece. */
  predicate StableText(text: string) {
    ':' !in text && NonEmptyPieces(Split(text, '-'))
  }

  predicate StableFilter(filter: EventFilter) {
    && (filter.address.Some? ==> ':' !in filter.address.value)
    && filter.topics.Some? && filter.topics.value != []
    && forall i :: 0 <= i < |filter.topics.value| ==> StableText(TopicText(filter.topics.value[i]))
  }

  lemma JoinFreeIff(parts: seq<string>, c: char, d: char)
    requires c != d
    ensures d !in Join(parts, c) <==> forall i :: 0 <= i < |parts| ==> d !in parts[i]
  {
    if forall i :: 0 <= i < |parts| ==> d !in parts[i] {
      JoinIsFree(parts, c, d);
    }
    if d !in Join(parts, c) {
      forall i | 0 <= i < |parts| ensures d !in parts[i] {
        if d in parts[i] { JoinHolds(parts, c, d, i); }
      }
    }
  }

  /** A key made of an address and a topic part. */
  lemma StableKeyIff(address: string, text: string)
    ensures StableKey(address + [':'] + text) <==>
              ':' !in address && ':' !in text && NonEmptyPieces(Split(text, '-'))
  {
    SplitConcat(address, text, ':');
    SplitOneIff(address, ':');
    SplitOneIff(text, ':');
    if ':' !in address && ':' !in text {
      SplitFree(address, ':');
      SplitFree(text, ':');
      assert Split(address + [':'] + text, ':') == [address, text];
    }
  }

  /**
   * A filter's key is stable exactly when the address has no colon, there are topics, and no topic
   * text has a colon, is empty, or starts, ends or doubles a dash.
   */
  lemma FilterKeyStableIff(filter: EventFilter)
    ensures KeyToFilter(FilterToKey(filter)).Some?
    ensures StableKey(FilterToKey(filter)) <==> StableFilter(filter)
  {
    var address := if filter.address.Some? then filter.address.value else "";
    var topics := if filter.topics.Some? then filter.topics.value else [];
    var texts := TopicTexts(topics);
    var text := Join(texts, '-');
    TopicTextsFacts(topics);
    assert FilterToKey(filter) == address + [':'] + text;
    SplitConcat(address, text, ':');
    StableKeyIff(address, text);
    JoinFreeIff(texts, '-', ':');
    if topics == [] {
      assert Split(text, '-')[0] == "";
    } else {
      JoinedPiecesIff(texts, '-');
    }
  }

  /** Without the key's own separators only missing and empty topics are left to spoil it. */
  lemma SeparatorFreeStableIff(filter: EventFilter)
    requires SeparatorFree(filter)
    ensures StableKey(FilterToKey(filter)) <==> NonEmptyTopics(filter)
  {
    FilterKeyStableIff(filter);
    if filter.topics.Some? {
      var topics := filter.topics.value;
      forall i | 0 <= i < |topics| ensures StableText(TopicText(topics[i])) <==> TopicText(topics[i]) != "" {
        var text := TopicText(topics[i]);
        SplitFree(text, '-');
        assert [text][0] == text;
      }
    }
  }

  // ---------- when a filter survives the round trip ----------

  /** A topic whose text can be told from every other topic's: not the wildcard, not empty, no list of one. */
  predicate PlainTopic(t: Topic) {
    match t
    case One(text) => text != "" && ';' !in text
    case Many(texts) => |texts| >= 2 && forall i :: 0 <= i < |texts| ==> ';' !in texts[i]
    case Any => false
  }

  lemma TopicRoundTripIff(t: Topic)
    ensures TopicOf(TopicText(t)) == t <==> PlainTopic(t)
  {
    match t {
      case One(text) =>
        OneRoundTripIff(text);
      case Many(texts) =>
        ManyRoundTripIff(texts);
      case Any =>
        assert TopicOf(NUL) != Any;
    }
  }

  lemma OneRoundTripIff(text: string)
    ensures TopicOf(TopicText(One(text))) == One(text) <==> PlainTopic(One(text))
  {
    var shown := if text == "" then NUL else text;
    PiecesAreFree(shown, ';', ';');
    if ';' !in shown { SplitFree(shown, ';'); }
  }

  lemma ManyRoundTripIff(texts: seq<string>)
    ensures TopicOf(TopicText(Many(texts))) == Many(texts) <==> PlainTopic(Many(texts))
  {
    var text := Join(texts, ';');
    PiecesAreFree(text, ';', ';');
    if PlainTopic(Many(texts)) { SplitJoin(texts, ';'); }
  }

  predicate PlainTopics(topics: seq<Topic>) {
    forall i :: 0 <= i < |topics| ==> PlainTopic(topics[i])
  }

  lemma {:induction false} TopicsRoundTripIff(topics: seq<Topic>)
    ensures TopicsOf(TopicTexts(topics)) == topics <==> PlainTopics(topics)
  {
    if topics != [] {
      var first, rest := topics[0], topics[1..];
      TopicRoundTripIff(first);
      TopicsRoundTripIff(rest);
      assert topics == [first] + rest;
      assert TopicTexts(topics)[1..] == TopicTexts(rest);
      assert TopicsOf(TopicTexts(topics)) == [TopicOf(TopicText(first))] + TopicsOf(TopicTexts(rest));
      PlainSplit(first, rest);
      HeadAndTail(TopicOf(TopicText(first)), TopicsOf(TopicTexts(rest)), first, rest);
    }
  }

  lemma HeadAndTail<T>(x: T, xs: seq<T>, y: T, ys: seq<T>)
    ensures [x] + xs == [y] + ys <==> x == y && xs == ys
  {
    assert ([x] + xs)[0] == x && ([x] + xs)[1..] == xs;
    assert ([y] + ys)[0] == y && ([y] + ys)[1..] == ys;
  }

  lemma PlainSplit(first: Topic, rest: seq<Topic>)
    ensures PlainTopics([first] + rest) <==> PlainTopic(first) && PlainTopics(rest)
  {
    var all := [first] + rest;
    if PlainTopics(all) {
      assert PlainTopic(all[0]);
      forall i | 0 <= i < |rest| ensures PlainTopic(rest[i]) { assert all[i + 1] == rest[i]; }
    }
  }

  /** What the key keeps of a filter. */
  predicate Survives(f: EventFilter) {
    && f.fromBlock.None? && f.address != Some("")
    && f.topics.Some? && f.topics.value != [] && PlainTopics(f.topics.value)
  }

  /** The filter parsed from the key of a separator-free filter. */
  lemma SeparatorFreeParses(f: EventFilter)
    requires SeparatorFree(f)
    ensures var topics := if f.topics.Some? then f.topics.value else [];
            KeyToFilter(FilterToKey(f)) == Some(EventFilter(
              if f.address == Some("") then None else f.address,
              Some(if topics == [] then [One("")] else TopicsOf(TopicTexts(topics))), None))
  {
    var address := if f.address.Some? then f.address.value else "";
    var topics := if f.topics.Some? then f.topics.value else [];
    var texts := TopicTexts(topics);
    var text := Join(texts, '-');
    TopicTextsFacts(topics);
    assert FilterToKey(f) == address + [':'] + text;
    JoinIsFree(texts, '-', ':');
    SplitFirst(address, text, ':');
    SplitFree(text, ':');
    var pcs := Split(FilterToKey(f), ':');
    assert pcs == [address, text];
    if topics == [] {
      assert Split(text, '-') == [""] && [""][1..] == [];
      assert TopicsOf([""]) == [TopicOf("")] + TopicsOf([]);
      assert TopicsOf(Split(pcs[1], '-')) == [One("")];
    } else {
      SplitJoin(texts, '-');
    }
  }

  lemma SeparatorFreeRoundTripIff(f: EventFilter)
    requires SeparatorFree(f)
    ensures KeyToFilter(FilterToKey(f)) == Some(f) <==> Survives(f)
  {
    SeparatorFreeParses(f);
    var topics := if f.topics.Some? then f.topics.value else [];
    TopicsRoundTripIff(topics);
  }

  lemma {:induction false} ParsedTopicTexts(pieces: seq<string>, i: nat)
    requires i < |pieces|
    ensures |TopicsOf(pieces)| == |pieces| && TopicText(TopicsOf(pieces)[i]) == Shown(pieces[i])
  {
    if i == 0 {
      JoinSplit(pieces[0], ';');
      ParsedTopicCount(pieces);
    } else {
      ParsedTopicTexts(pieces[1..], i - 1);
      assert TopicsOf(pieces) == [TopicOf(pieces[0])] + TopicsOf(pieces[1..]);
    }
  }

  lemma {:induction false} ParsedTopicCount(pieces: seq<string>)
    ensures |TopicsOf(pieces)| == |pieces|
  {
    if pieces != [] { ParsedTopicCount(pieces[1..]); }
  }

  /** A parsed filter never holds the key's own separators. */
  lemma ParsedIsSeparatorFree(key: string)
    ensures KeyToFilter(key).Some? ==> SeparatorFree(KeyToFilter(key).value)
  {
    var pcs := Split(key, ':');
    if |pcs| >= 2 {
      var pieces := Split(pcs[1], '-');
      PiecesAreFree(key, ':', ':');
      PiecesAreFree(pcs[1], '-', ':');
      PiecesAreFree(pcs[1], '-', '-');
      ParsedTopicCount(pieces);
      forall i | 0 <= i < |pieces|
        ensures ':' !in TopicText(TopicsOf(pieces)[i]) && '-' !in TopicText(TopicsOf(pieces)[i])
      {
        ParsedTopicTexts(pieces, i);
      }
    }
  }

  /**
   * A filter comes back from its key exactly when it is free of separators, has no start block and
   * no empty address, and has topics of which each is a plain text or a list of at least two.
   */
  lemma FilterRoundTripIff(f: EventFilter)
    ensures KeyToFilter(FilterToKey(f)) == Some(f) <==> SeparatorFree(f) && Survives(f)
  {
    ParsedIsSeparatorFree(FilterToKey(f));
    if SeparatorFree(f) { SeparatorFreeRoundTripIff(f); }
  }

  /** A filter with a wildcard comes back asking for the topic NUL. */
  lemma WildcardIsLost(address: string)
    requires address != "" && ':' !in address
    ensures var f := EventFilter(Some(address), Some([Any]), None);
            KeyToFilter(FilterToKey(f)) == Some(EventFilter(Some(address), Some([One(NUL)]), None))
  {
    var f := EventFilter(Some(address), Some([Any]), None);
    assert TopicText(Any) == NUL;
    SeparatorFreeParses(f);
    SplitFree(NUL, ';');
    assert [Any][1..] == [] && TopicTexts([Any]) == [NUL] + TopicTexts([]);
    assert [NUL][1..] == [] && TopicsOf([NUL]) == [TopicOf(NUL)] + TopicsOf([]);
    assert TopicTexts([Any]) == [NUL] && TopicsOf([NUL]) == [One(NUL)];
  }

  // ---------- what a key looks like ----------

  /** Between two dashes: the topic itself, the alternatives between semicolons, or NUL for none or an empty one. */
  predicate Writes(text: string, t: Topic) {
    match t
    case One(topic) => text == if topic == "" then ['\0'] else topic
    case Many(topics) =>
      if topics == [] then text == ""
      else (forall i :: 0 <= i < |topics| ==> ';' !in topics[i]) ==> Split(text, ';') == topics
    case Any => text == ['\0']
  }

  lemma TopicIsWritten(t: Topic)
    ensures Writes(TopicText(t), t)
  {
    if t.Many? && t.texts != [] && forall i :: 0 <= i < |t.texts| ==> ';' !in t.texts[i] {
      SplitJoin(t.texts, ';');
    }
  }

  /** In front of the colon the address, behind it the topics in order. */
  lemma KeyIsLaidOut(f: EventFilter)
    requires SeparatorFree(f)
    ensures var key := Split(FilterToKey(f), ':');
            && |key| == 2 && key[0] == (if f.address.Some? then f.address.value else "")
            && if f.topics.None? || f.topics.value == [] then key[1] == ""
               else
                 var texts := Split(key[1], '-');
                 && |texts| == |f.topics.value|
                 && forall i :: 0 <= i < |texts| ==> Writes(texts[i], f.topics.value[i])
  {
    var address := if f.address.Some? then f.address.value else "";
    var topics := if f.topics.Some? then f.topics.value else [];
    var texts := TopicTexts(topics);
    var text := Join(texts, '-');
    TopicTextsFacts(topics);
    assert FilterToKey(f) == address + [':'] + text;
    JoinIsFree(texts, '-', ':');
    SplitFirst(address, text, ':');
    SplitFree(text, ':');
    if topics != [] {
      SplitJoin(texts, '-');
      forall i | 0 <= i < |texts| ensures Writes(texts[i], topics[i]) { TopicIsWritten(topics[i]); }
    }
  }
}
