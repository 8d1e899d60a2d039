/**
 From an Ethereum topic filter to the filter a node can express: `TranslateTopics`, the builders
 of the node request, and what its JSON form keeps.
 */
module Topics {
  import opened Common

  /** One entry of a JSON list, and one position of the `topics` parameter, as decoded from JSON. */
  datatype Item = Text(s: string) | NonText

  datatype Topic =
    | Null
    | One(s: string)
    | Strings(ss: seq<string>)
    | Items(items: seq<Item>)
    | Other

  /** The alternatives accepted at one position; none means anything is. */
  type Alternatives = seq<string>

  // ----- the documented meaning of a filter

  ghost predicate Same(a: string, b: string) {
    exists c :: Denotes(a, c) && Lower(c) == Lower(b)
  }

  lemma SameIff(a: string, b: string)
    ensures Same(a, b) <==> Lower(RemoveHexPrefix(a)) == Lower(b)
  {
    if c :| Denotes(a, c) && Lower(c) == Lower(b) {
      DenotesOne(a, c);
    }
  }

  /** A null or an empty list accepts anything, otherwise one alternative must be the topic. */
  ghost predicate TopicAccepts(t: Topic, topic: string) {
    match t
    case Null => true
    case One(s) => Same(s, topic)
    case Strings(ss) => ss == [] || exists i :: 0 <= i < |ss| && Same(ss[i], topic)
    case Items(items) =>
      items == [] || exists i :: 0 <= i < |items| && items[i].Text? && Same(items[i].s, topic)
    case Other => false
  }

  /** [A, B]: A in the first position and B in the second (and anything after). */
  ghost predicate EthStrict(filter: seq<Topic>, topics: seq<string>) {
    |topics| >= |filter| && forall i :: 0 <= i < |filter| ==> TopicAccepts(filter[i], topics[i])
  }

  // ----- the same on translated filters

  ghost predicate Accepts(alts: Alternatives, topic: string) {
    alts == [] || exists i :: 0 <= i < |alts| && Lower(alts[i]) == Lower(topic)
  }

  ghost predicate Strict(filter: seq<Alternatives>, topics: seq<string>) {
    |topics| >= |filter| && forall i :: 0 <= i < |filter| ==> Accepts(filter[i], topics[i])
  }

  /** Only the positions the log has are looked at. */
  ghost predicate Loose(filter: seq<Alternatives>, topics: seq<string>) {
    forall i :: 0 <= i < |filter| && i < |topics| ==> Accepts(filter[i], topics[i])
  }

  // ----- translation

  ghost predicate Malformed(t: Topic) {
    t.Items? && exists i :: 0 <= i < |t.items| && t.items[i].NonText?
  }

  function Positional(filter: seq<Topic>): seq<Topic> {
    Keep((t: Topic) => !t.Other?, filter)
  }

  function Unprefixed(ss: seq<string>): Alternatives {
    seq(|ss|, i requires 0 <= i < |ss| => RemoveHexPrefix(ss[i]))
  }

  function TextOf(item: Item): string {
    if item.Text? then RemoveHexPrefix(item.s) else ""
  }

  function AlternativesOf(t: Topic): Alternatives {
    match t
    case Null => []
    case One(s) => [RemoveHexPrefix(s)]
    case Strings(ss) => Unprefixed(ss)
    case Items(items) => seq(|items|, i requires 0 <= i < |items| => TextOf(items[i]))
    case Other => []
  }

  /** The alternatives some strings denote, one by one. */
  ghost predicate AllDenote(ss: seq<string>, alts: Alternatives) {
    |ss| == |alts| && forall i :: 0 <= i < |ss| ==> Denotes(ss[i], alts[i])
  }

  /** What a position is translated to: anything, the one string's, or the listed strings' meanings. */
  ghost predicate TranslatesTo(t: Topic, alts: Alternatives) {
    match t
    case Null => alts == []
    case One(s) => AllDenote([s], alts)
    case Strings(ss) => AllDenote(ss, alts)
    case Items(items) =>
      |items| == |alts| && forall i :: 0 <= i < |items| ==> items[i].Text? && Denotes(items[i].s, alts[i])
    case Other => false
  }

  lemma AlternativesDenote(t: Topic)
    requires !t.Other? && !Malformed(t)
    ensures TranslatesTo(t, AlternativesOf(t))
  {
  }

  lemma PositionalNext(filter: seq<Topic>, n: nat)
    requires n < |filter|
    ensures Positional(filter[..n + 1]) == Positional(filter[..n]) + if filter[n].Other? then [] else [filter[n]]
  {
    assert filter[..n + 1] == filter[..n] + [filter[n]];
    KeepConcat((t: Topic) => !t.Other?, filter[..n], [filter[n]]);
  }

  method UnprefixAll(ss: seq<string>) returns (stringTopics: Alternatives)
    ensures stringTopics == Unprefixed(ss) && AllDenote(ss, stringTopics)
  {
    stringTopics := [];
    for k := 0 to |ss|
      invariant |stringTopics| == k
      invariant forall i :: 0 <= i < k ==> stringTopics[i] == RemoveHexPrefix(ss[i])
    {
      stringTopics := stringTopics + [RemoveHexPrefix(ss[k])];
    }
  }

  method UnprefixItems(items: seq<Item>) returns (r: Option<Alternatives>)
    ensures r.None? <==> exists i :: 0 <= i < |items| && items[i].NonText?
    ensures r.Some? ==> r.value == AlternativesOf(Items(items))
  {
    var stringTopics: Alternatives := [];
    for k := 0 to |items|
      invariant |stringTopics| == k
      invariant forall i :: 0 <= i < k ==> items[i].Text? && stringTopics[i] == TextOf(items[i])
    {
      if items[k].NonText? {
        return None;
      }
      stringTopics := stringTopics + [RemoveHexPrefix(items[k].s)];
    }
    r := Some(stringTopics);
    assert r.value == AlternativesOf(Items(items));
  }

  /** A position with a value of any other type vanishes, and what follows moves up. */
  method TranslateTopics(ethTopics: seq<Topic>) returns (r: Option<seq<Alternatives>>)
    ensures r.None? <==> exists i :: 0 <= i < |ethTopics| && Malformed(ethTopics[i])
    ensures r.Some? ==> |r.value| == |Positional(ethTopics)|
    ensures r.Some? ==> forall i :: 0 <= i < |r.value| ==> r.value[i] == AlternativesOf(Positional(ethTopics)[i])
    ensures r.Some? ==> forall i :: 0 <= i < |r.value| ==> TranslatesTo(Positional(ethTopics)[i], r.value[i])
  {
    var topics: seq<Alternatives> := [];
    for n := 0 to |ethTopics|
      invariant forall i :: 0 <= i < n ==> !Malformed(ethTopics[i])
      invariant |topics| == |Positional(ethTopics[..n])|
      invariant forall i :: 0 <= i < |topics| ==> topics[i] == AlternativesOf(Positional(ethTopics[..n])[i])
    {
      PositionalNext(ethTopics, n);
      match ethTopics[n] {
        case Null => topics := topics + [[]];
        case One(s) => topics := topics + [[RemoveHexPrefix(s)]];
        case Strings(ss) =>
          var stringTopics := UnprefixAll(ss);
          topics := topics + [stringTopics];
        case Items(items) =>
          var stringTopics := UnprefixItems(items);
          if stringTopics.None? {
            return None;
          }
          topics := topics + [stringTopics.value];
        case Other =>
      }
    }
    assert ethTopics[..|ethTopics|] == ethTopics;
    forall i | 0 <= i < |topics| ensures TranslatesTo(Positional(ethTopics)[i], topics[i]) {
      assert Positional(ethTopics)[i] in Positional(ethTopics);
      AlternativesDenote(Positional(ethTopics)[i]);
    }
    return Some(topics);
  }

  /** What `TranslateTopics` yields, as a value. */
  function Translated(filter: seq<Topic>): seq<Alternatives> {
    var p := Positional(filter);
    seq(|p|, i requires 0 <= i < |p| => AlternativesOf(p[i]))
  }

  /** Null, strings and lists of strings only: the inputs the translation is meant for. */
  ghost predicate WellFormed(filter: seq<Topic>) {
    forall i :: 0 <= i < |filter| ==> !filter[i].Other? && !Malformed(filter[i])
  }

  lemma {:induction false} KeepAll(filter: seq<Topic>)
    ensures |Positional(filter)| <= |filter|
    ensures (forall i :: 0 <= i < |filter| ==> !filter[i].Other?) ==> Positional(filter) == filter
    ensures (exists i :: 0 <= i < |filter| && filter[i].Other?) ==> |Positional(filter)| < |filter|
  {
    if filter != [] {
      KeepAll(filter[1..]);
      forall i | 0 < i < |filter| ensures filter[i] == filter[1..][i - 1] {}
    }
  }

  /** Positions are kept exactly when no position holds a value of an unexpected type. */
  lemma PositionsKeptIff(filter: seq<Topic>)
    ensures |Translated(filter)| == |filter| <==> forall i :: 0 <= i < |filter| ==> !filter[i].Other?
  {
    KeepAll(filter);
  }

  lemma AlternativesMean(t: Topic, topic: string)
    requires !t.Other? && !Malformed(t)
    ensures Accepts(AlternativesOf(t), topic) <==> TopicAccepts(t, topic)
  {
    var alts := AlternativesOf(t);
    forall a ensures Same(a, topic) <==> Lower(RemoveHexPrefix(a)) == Lower(topic) {
      SameIff(a, topic);
    }
    match t {
      case One(s) => assert alts[0] == RemoveHexPrefix(s);
      case Strings(ss) => assert forall i :: 0 <= i < |ss| ==> (Lower(alts[i]) == Lower(topic) <==> Same(ss[i], topic));
      case Items(items) =>
        assert forall i :: 0 <= i < |items| ==> items[i].Text?;
        assert forall i :: 0 <= i < |items| ==> (Lower(alts[i]) == Lower(topic) <==> Same(items[i].s, topic));
      case _ =>
    }
  }

  /** Translation preserves the documented meaning of a filter. */
  lemma TranslationPreservesMeaning(filter: seq<Topic>, topics: seq<string>)
    requires WellFormed(filter)
    ensures Strict(Translated(filter), topics) <==> EthStrict(filter, topics)
  {
    KeepAll(filter);
    forall i | 0 <= i < |filter| && i < |topics|
      ensures Accepts(Translated(filter)[i], topics[i]) <==> TopicAccepts(filter[i], topics[i])
    {
      AlternativesMean(filter[i], topics[i]);
    }
  }

  // ----- the request the node gets

  method NewSearchLogsTopics(topics: seq<Alternatives>) returns (result: seq<Alternatives>)
    ensures result == topics
  {
    result := [];
    for i := 0 to |topics|
      invariant result == topics[..i]
    {
      var one: Alternatives := [];
      for k := 0 to |topics[i]|
        invariant one == topics[i][..k]
      {
        one := one + [topics[i][k]];
      }
      assert one == topics[i];
      result := result + [one];
    }
  }

  /** `SearchLogsTopic.MarshalJSON`: a lone alternative is sent, anything else becomes null. */
  function WireTopic(t: Alternatives): Option<string> {
    if |t| == 1 then Some(t[0]) else None
  }

  /** The `topics` argument of the node call; None when it is left out altogether. */
  type WireFilter = Option<seq<Option<string>>>

  method MarshalTopics(topics: seq<Alternatives>) returns (wire: WireFilter)
    ensures wire.None? <==> forall i :: 0 <= i < |topics| ==> WireTopic(topics[i]).None?
    ensures wire.Some? ==> wire.value == seq(|topics|, i requires 0 <= i < |topics| => WireTopic(topics[i]))
  {
    if |topics| > 0 {
      var nullCount := 0;
      for i := 0 to |topics|
        invariant 0 <= nullCount <= i
        invariant nullCount == i <==> forall k :: 0 <= k < i ==> WireTopic(topics[k]).None?
      {
        if WireTopic(topics[i]).None? {
          nullCount := nullCount + 1;
        }
      }
      if nullCount != |topics| {
        return Some(seq(|topics|, i requires 0 <= i < |topics| => WireTopic(topics[i])));
      }
    }
    return None;
  }

  function Wire(topics: seq<Alternatives>): WireFilter {
    if forall i :: 0 <= i < |topics| ==> WireTopic(topics[i]).None? then None
    else Some(seq(|topics|, i requires 0 <= i < |topics| => WireTopic(topics[i])))
  }

  /** A log the wire filter describes: every position that is not null holds that topic. */
  ghost predicate WireMatches(wire: WireFilter, topics: seq<string>) {
    wire.Some? ==> forall i :: 0 <= i < |wire.value| && wire.value[i].Some? ==>
      i < |topics| && Lower(wire.value[i].value) == Lower(topics[i])
  }

  /** The node is asked for no less: every strict match is a match of the wire filter. */
  lemma WireIsWeaker(filter: seq<Alternatives>, topics: seq<string>)
    requires Strict(filter, topics)
    ensures WireMatches(Wire(filter), topics)
  {
    forall i | 0 <= i < |filter| && WireTopic(filter[i]).Some?
      ensures Lower(filter[i][0]) == Lower(topics[i])
    {
      assert Accepts(filter[i], topics[i]);
    }
  }

  function Longer(alts: seq<string>): (r: string)
    ensures forall a :: a in alts ==> |a| < |r|
  {
    if alts == [] then "0"
    else
      var rest := Longer(alts[1..]);
      if |alts[0]| < |rest| then rest else alts[0] + "0"
  }

  /** A log that fails position `at` only, which offers alternatives but none of them this one. */
  function Counterexample(filter: seq<Alternatives>, at: nat): (topics: seq<string>)
    requires at < |filter|
    ensures |topics| == |filter|
  {
    seq(|filter|, i requires 0 <= i < |filter| =>
      if i == at then Longer(filter[i]) else if filter[i] == [] then "" else filter[i][0])
  }

  /**
   The wire filter loses nothing on logs that are long enough exactly when no position offers
   several alternatives; with one that does, some log passes the node and not the filter.
   */
  lemma WireIsExactIff(filter: seq<Alternatives>)
    ensures (forall topics: seq<string> :: |topics| >= |filter| ==>
              (WireMatches(Wire(filter), topics) <==> Strict(filter, topics)))
       <==> forall i :: 0 <= i < |filter| ==> |filter[i]| <= 1
  {
    if forall i :: 0 <= i < |filter| ==> |filter[i]| <= 1 {
      forall topics: seq<string> | |topics| >= |filter|
        ensures WireMatches(Wire(filter), topics) <==> Strict(filter, topics)
      {
        SingletonsAreExact(filter, topics);
      }
    } else {
      var at :| 0 <= at < |filter| && |filter[at]| > 1;
      MultipleIsLossy(filter, at);
    }
  }

  lemma SingletonsAreExact(filter: seq<Alternatives>, topics: seq<string>)
    requires |topics| >= |filter|
    requires forall i :: 0 <= i < |filter| ==> |filter[i]| <= 1
    ensures WireMatches(Wire(filter), topics) <==> Strict(filter, topics)
  {
    if Strict(filter, topics) {
      WireIsWeaker(filter, topics);
    } else if WireMatches(Wire(filter), topics) {
      forall i | 0 <= i < |filter| ensures Accepts(filter[i], topics[i]) {
        if |filter[i]| == 1 {
          assert WireTopic(filter[i]).Some?;
          assert Wire(filter).Some? && Wire(filter).value[i].Some?;
        }
      }
    }
  }

  lemma MultipleIsLossy(filter: seq<Alternatives>, at: nat)
    requires at < |filter| && |filter[at]| > 1
    ensures var topics := Counterexample(filter, at);
            WireMatches(Wire(filter), topics) && !Strict(filter, topics)
  {
    var topics := Counterexample(filter, at);
    forall i | 0 <= i < |filter[at]| ensures Lower(filter[at][i]) != Lower(topics[at]) {
      assert filter[at][i] in filter[at];
      assert |Lower(filter[at][i])| != |Lower(topics[at])|;
    }
    assert !Accepts(filter[at], topics[at]);
  }
}
