/** eth_getLogs from its decoded JSON to the client's answer: block range, addresses, topics. */
module LogRequests {
  import opened Common
  import opened Topics
  import opened Logs
  import opened BlockPositions

  /** One end of the block range: a JSON string, an integer, or neither (also when it is not there). */
  datatype BlockParam = Tag(s: string) | Number(n: int) | Neither

  datatype AddressParam = Absent | Single(address: string) | Several(addresses: seq<string>) | Unreadable

  datatype Request = Request(fromBlock: BlockParam, toBlock: BlockParam, address: AddressParam, topics: seq<Topic>)

  /**
   What surrounds one call: the node's height each time it is asked for, the library's reading of a
   hex quantity, and what searchlogs answers. A negative `to` is for the node to interpret.
   */
  datatype Surroundings = Surroundings(
    fromHeight: Option<nat>,
    toHeight: Option<nat>,
    quantity: string -> Option<nat>,
    node: Search -> Option<Receipt -> bool>)

  datatype Search = Search(from: int, to: int, addresses: seq<string>, topics: WireFilter)

  /** `utils.DecodeBig`, on a string that has its prefix. */
  function DecodeBig(s: string, quantity: string -> Option<nat>): Option<nat> {
    if s == "0x00" then Some(0) else quantity(s)
  }

  /** `getBlockNumberByRawParam` with its default. */
  function BlockNumber(p: BlockParam, height: Option<nat>, quantity: string -> Option<nat>): Option<int> {
    match p
    case Neither => None
    case Number(n) => Some(n)
    case Tag(s) =>
      if s == "" || s == "latest" then (if height.Some? then Some(height.value) else None)
      else if s == "earliest" then Some(0)
      else if s == "pending" || RemoveHexPrefix(s) == s then None
      else
        var n := DecodeBig(s, quantity);
        if n.Some? then Some(n.value) else None
  }

  /**
   The height an end of the range stands for: the node's for "latest" and for the empty string, 0 for
   "earliest", an integer for itself, and what "0x" and a hex quantity say. Nothing else does, neither
   "pending" nor an end that is left out.
   */
  ghost predicate StandsFor(p: BlockParam, height: Option<nat>, quantity: string -> Option<nat>, n: int) {
    match p
    case Neither => false
    case Number(k) => n == k
    case Tag(s) =>
      || ((s == "" || s == "latest") && n >= 0 && height == Some(n))
      || (s == "earliest" && n == 0)
      || (HasHexPrefix(s) && n >= 0 && if s == "0x00" then n == 0 else quantity(s) == Some(n))
  }

  lemma BlockNumberIff(p: BlockParam, height: Option<nat>, quantity: string -> Option<nat>, n: int)
    ensures BlockNumber(p, height, quantity) == Some(n) <==> StandsFor(p, height, quantity, n)
  {
    if p.Tag? {
      assert RemoveHexPrefix(p.s) == p.s <==> !HasHexPrefix(p.s);
    }
  }

  /** The addresses without their prefix; None when they cannot be read. */
  function Addresses(p: AddressParam): Option<seq<string>> {
    match p
    case Absent => Some([])
    case Single(a) => Some([RemoveHexPrefix(a)])
    case Several(addresses) => Some(Unprefixed(addresses))
    case Unreadable => None
  }

  /** The strings of an address parameter, in order; none when it is absent. */
  ghost predicate Lists(p: AddressParam, ss: seq<string>) {
    match p
    case Absent => ss == []
    case Single(a) => ss == [a]
    case Several(as_) => ss == as_
    case Unreadable => false
  }

  lemma AddressesDenote(p: AddressParam, bare: seq<string>)
    ensures Addresses(p) == Some(bare) <==> exists ss :: Lists(p, ss) && AllDenote(ss, bare)
  {
    forall s, c ensures Denotes(s, c) <==> c == RemoveHexPrefix(s) {
      DenotesOne(s, c);
    }
    match p {
      case Absent => assert Lists(p, []) && AllDenote([], []);
      case Single(a) =>
        assert Lists(p, [a]) && AllDenote([a], [RemoveHexPrefix(a)]);
        assert [a][0] == a;
        assert AllDenote([a], bare) ==> bare == [RemoveHexPrefix(a)];
      case Several(as_) =>
        assert Lists(p, as_) && AllDenote(as_, Unprefixed(as_));
        assert AllDenote(as_, bare) ==> bare == Unprefixed(as_);
      case Unreadable =>
    }
  }

  method ToAddresses(p: AddressParam) returns (r: Option<seq<string>>)
    ensures r == Addresses(p)
    ensures r.None? <==> p.Unreadable?
    ensures r.Some? ==> exists ss :: Lists(p, ss) && AllDenote(ss, r.value)
  {
    var given: seq<string> := [];
    if p.Unreadable? {
      return None;
    } else if p.Single? {
      given := [p.address];
    } else if p.Several? {
      given := p.addresses;
    }
    var addresses := new string[|given|](i requires 0 <= i < |given| => given[i]);
    assert addresses[..] == given;
    StripPrefixes(addresses);
    assert Lists(p, given) && AllDenote(given, addresses[..]);
    assert p.Single? ==> Unprefixed(given) == [RemoveHexPrefix(p.address)];
    return Some(addresses[..]);
  }

  /** What the node is asked; None when the request is rejected. */
  ghost function SearchOf(req: Request, env: Surroundings): Option<Search> {
    var from := BlockNumber(req.fromBlock, env.fromHeight, env.quantity);
    var to := BlockNumber(req.toBlock, env.toHeight, env.quantity);
    if from.None? || to.None? || Addresses(req.address).None? || (exists t :: t in req.topics && Malformed(t)) then None
    else Some(Search(from.value, to.value, Addresses(req.address).value, Wire(Translated(req.topics))))
  }

  /** What is searched for, in the parameters' own terms. */
  lemma SearchIff(req: Request, env: Surroundings, search: Search)
    ensures SearchOf(req, env) == Some(search) <==>
            && StandsFor(req.fromBlock, env.fromHeight, env.quantity, search.from)
            && StandsFor(req.toBlock, env.toHeight, env.quantity, search.to)
            && (exists ss :: Lists(req.address, ss) && AllDenote(ss, search.addresses))
            && (forall t :: t in req.topics ==> !Malformed(t))
            && search.topics == Wire(Translated(req.topics))
  {
    BlockNumberIff(req.fromBlock, env.fromHeight, env.quantity, search.from);
    BlockNumberIff(req.toBlock, env.toHeight, env.quantity, search.to);
    AddressesDenote(req.address, search.addresses);
  }

  /** The whole call. */
  method GetLogs(chain: seq<Receipt>, req: Request, env: Surroundings) returns (r: Option<seq<EthLog>>)
    ensures r == match SearchOf(req, env)
                 case None => None
                 case Some(search) =>
                   if env.node(search).None? then None
                   else Some(Flatten(Pipeline(chain, env.node(search).value, search.addresses, req.topics)))
    ensures r.Some? ==>
              var search := SearchOf(req, env).value;
              ShowsAll(r.value, Pipeline(chain, env.node(search).value, search.addresses, req.topics))
  {
    var from := BlockNumber(req.fromBlock, env.fromHeight, env.quantity);
    if from.None? {
      return None;
    }
    var to := BlockNumber(req.toBlock, env.toHeight, env.quantity);
    if to.None? {
      return None;
    }
    var addresses := ToAddresses(req.address);
    if addresses.None? {
      return None;
    }
    r := EthGetLogs(chain, (wire: WireFilter) => env.node(Search(from.value, to.value, addresses.value, wire)),
                    addresses.value, req.topics);
    assert forall t :: t in req.topics ==> exists i :: 0 <= i < |req.topics| && req.topics[i] == t;
  }

  ghost function DocumentedFor(chain: seq<Receipt>, search: Search, topics: seq<Topic>): seq<EthLog>
    requires search.from >= 0 && search.to >= 0
  {
    Documented(chain, 0, search.from, search.to, search.addresses, topics)
  }

  /** A wanted log of the range has a log in an earlier receipt of its block; without a filter, any log before it. */
  ghost predicate Misplaced(chain: seq<Receipt>, search: Search, topics: seq<Topic>)
    requires search.from >= 0 && search.to >= 0
  {
    if Given(search.addresses, topics) then SomeDisplaced(chain, 0, search.from, search.to, search.addresses, topics)
    else SomeCrowded(chain, 0, search.from, search.to)
  }

  /**
   For every accepted request, a range of heights and an honest node, the client's answer is the
   documented one exactly when no answered log passes with too few topics and none is misplaced.
   */
  lemma AnswerIsDocumentedIff(chain: seq<Receipt>, req: Request, env: Surroundings, answers: Receipt -> bool)
    requires WellFormed(req.topics) && SearchOf(req, env).Some?
    requires env.node(SearchOf(req, env).value) == Some(answers)
    requires SearchOf(req, env).value.from >= 0 && SearchOf(req, env).value.to >= 0
    requires var s := SearchOf(req, env).value;
             Honest(answers, s.from, s.to, s.addresses, s.topics)
    requires forall r, i :: r in chain && 0 <= i < |r.logs| ==> r.logs[i].index == 0
    ensures Flatten(Pipeline(chain, answers, SearchOf(req, env).value.addresses, req.topics))
              == DocumentedFor(chain, SearchOf(req, env).value, req.topics)
       <==> !ShortPasses(chain, answers, SearchOf(req, env).value.addresses, req.topics)
            && !Misplaced(chain, SearchOf(req, env).value, req.topics)
  {
    var s := SearchOf(req, env).value;
    if Given(s.addresses, req.topics) {
      PipelineIsDocumentedIff(chain, answers, s.from, s.to, s.addresses, req.topics);
    } else {
      UnfilteredIsDocumentedIff(chain, answers, s.from, s.to);
    }
  }
}
