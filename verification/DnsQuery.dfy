/** Answering the questions of one DNS message: `do_query` of crates/arti/src/dns.rs.

    The Tor network, the parser of reverse-lookup names and the parser of host names are arguments. */
module DnsQuery {
  import opened Wrappers

  datatype Ip = V4(v4: nat) | V6(v6: nat)

  datatype RecordType = A | AAAA | PTR | OtherType(code: nat)

  datatype DnsClass = IN | OtherClass(code: nat)

  datatype Query = Query(name: string, kind: RecordType, klass: DnsClass)

  datatype ResponseCode = NoError | FormErr | ServFail | NotImp

  datatype Record =
    | Address(name: string, ttl: nat, ip: Ip)
    | Pointer(name: string, ttl: nat, target: string)

  const TTL := 3600

  /** The environment: what the network answers to the n-th question (an error says whether it was
      "host not found"), and how names parse. */
  datatype Net = Net(
    resolve: (nat, string) -> Result<seq<Ip>, bool>,
    resolvePtr: (nat, Ip) -> Result<seq<string>, bool>,
    parseArpa: string -> Option<Ip>,
    isName: string -> bool)

  /** "Host not found" is reported as success without data (section 2.2 of RFC 2308). */
  function ErrorCode(notFound: bool): ResponseCode {
    if notFound then NoError else ServFail
  }

  /** The name without its final dot. */
  function Relative(name: string): string {
    if name != [] && name[|name| - 1] == '.' then name[..|name| - 1] else name
  }

  predicate MatchesKind(ip: Ip, kind: RecordType) {
    (ip.V4? && kind.A?) || (ip.V6? && kind.AAAA?)
  }

  /** Why the n-th question makes the whole message fail, if it does. */
  function Failure(net: Net, n: nat, q: Query): Option<ResponseCode> {
    if !q.klass.IN? then Some(NotImp)
    else match q.kind
      case OtherType(_) => Some(NotImp)
      case PTR =>
        (match net.parseArpa(q.name)
         case None => Some(FormErr)
         case Some(ip) =>
           match net.resolvePtr(n, ip)
           case Err(notFound) => Some(ErrorCode(notFound))
           case Ok(names) => if exists i :: 0 <= i < |names| && !net.isName(names[i]) then Some(ServFail) else None)
      case _ =>
        match net.resolve(n, Relative(q.name))
        case Err(notFound) => Some(ErrorCode(notFound))
        case Ok(_) => None
  }

  /** The records of addresses that are of the kind asked for, in the order they came. */
  function AddressRecords(q: Query, ips: seq<Ip>): seq<Record> {
    if ips == [] then []
    else
      var last := ips[|ips| - 1];
      var before := AddressRecords(q, ips[..|ips| - 1]);
      if MatchesKind(last, q.kind) then before + [Address(q.name, TTL, last)] else before
  }

  function PointerRecords(q: Query, names: seq<string>): (rs: seq<Record>)
    ensures |rs| == |names| && forall i | 0 <= i < |rs| :: rs[i] == Pointer(q.name, TTL, names[i])
  {
    seq(|names|, i requires 0 <= i < |names| => Pointer(q.name, TTL, names[i]))
  }

  /** The answers to a question that does not fail. */
  function Answers(net: Net, n: nat, q: Query): seq<Record>
    requires Failure(net, n, q).None?
  {
    if q.kind.PTR? then PointerRecords(q, net.resolvePtr(n, net.parseArpa(q.name).value).value)
    else AddressRecords(q, net.resolve(n, Relative(q.name)).value)
  }

  /** The answers to the first `n` questions, in order. */
  function AnswersUpTo(net: Net, queries: seq<Query>, n: nat): seq<Record>
    requires n <= |queries| && forall i | 0 <= i < n :: Failure(net, i, queries[i]).None?
  {
    if n == 0 then [] else AnswersUpTo(net, queries, n - 1) + Answers(net, n - 1, queries[n - 1])
  }

  /** The first question that fails decides the error; otherwise all answers are returned, in order. */
  method DoQuery(net: Net, queries: seq<Query>) returns (r: Result<seq<Record>, ResponseCode>)
    ensures match r
            case Ok(answers) =>
              && (forall i | 0 <= i < |queries| :: Failure(net, i, queries[i]).None?)
              && answers == AnswersUpTo(net, queries, |queries|)
            case Err(code) =>
              exists i :: 0 <= i < |queries| && Failure(net, i, queries[i]) == Some(code)
                          && forall j | 0 <= j < i :: Failure(net, j, queries[j]).None?
  {
    var answers: seq<Record> := [];
    for n := 0 to |queries|
      invariant forall i | 0 <= i < n :: Failure(net, i, queries[i]).None?
      invariant answers == AnswersUpTo(net, queries, n)
    {
      var q := queries[n];
      var found := AskOne(net, n, q);
      match found {
        case Err(code) => return Err(code);
        case Ok(records) => answers := answers + records;
      }
    }
    r := Ok(answers);
  }

  method AskOne(net: Net, n: nat, q: Query) returns (r: Result<seq<Record>, ResponseCode>)
    ensures r.Err? ==> Failure(net, n, q) == Some(r.error)
    ensures r.Ok? ==> Failure(net, n, q).None? && r.value == Answers(net, n, q)
  {
    if !q.klass.IN? {
      return Err(NotImp);
    }
    match q.kind {
      case PTR =>
        var arpa := net.parseArpa(q.name);
        if arpa.None? {
          return Err(FormErr);
        }
        var res := net.resolvePtr(n, arpa.value);
        if res.Err? {
          return Err(ErrorCode(res.error));
        }
        var names := res.value;
        var records: seq<Record> := [];
        for i := 0 to |names|
          invariant records == PointerRecords(q, names[..i])
          invariant forall j | 0 <= j < i :: net.isName(names[j])
        {
          if !net.isName(names[i]) {
            return Err(ServFail);
          }
          records := records + [Pointer(q.name, TTL, names[i])];
        }
        assert names[..|names|] == names;
        r := Ok(records);
      case OtherType(_) =>
        return Err(NotImp);
      case _ =>
        var res := net.resolve(n, Relative(q.name));
        if res.Err? {
          return Err(ErrorCode(res.error));
        }
        var ips := res.value;
        var records: seq<Record> := [];
        for i := 0 to |ips|
          invariant records == AddressRecords(q, ips[..i])
        {
          assert ips[..i + 1][..i] == ips[..i];
          if MatchesKind(ips[i], q.kind) {
            records := records + [Address(q.name, TTL, ips[i])];
          }
        }
        assert ips[..|ips|] == ips;
        r := Ok(records);
    }
  }

  /** An address is among the records of a question exactly when the network gave it and it is of the
      kind asked for. */
  lemma {:induction false} AddressRecordsContain(q: Query, ips: seq<Ip>, ip: Ip)
    ensures Address(q.name, TTL, ip) in AddressRecords(q, ips) <==> ip in ips && MatchesKind(ip, q.kind)
  {
    if ips != [] {
      AddressRecordsContain(q, ips[..|ips| - 1], ip);
      assert ips == ips[..|ips| - 1] + [ips[|ips| - 1]];
    }
  }

  // ---------------------------------------------------------------------------------------------
  // What each kind of question comes to
  // ---------------------------------------------------------------------------------------------

  /** What the client is told of an error of the network. */
  ghost predicate Tells(code: Option<ResponseCode>, notFound: bool) {
    (notFound ==> code == Some(NoError)) && (!notFound ==> code == Some(ServFail))
  }

  /** A question for addresses asks the network for the name without its final dot; a host that is not
      found is no error, and any other failure is one of the server. */
  lemma AddressQuestion(net: Net, n: nat, q: Query, asked: string)
    requires q.klass == IN && (q.kind == A || q.kind == AAAA)
    requires q.name == asked + "." || (q.name == asked && (asked == [] || asked[|asked| - 1] != '.'))
    ensures net.resolve(n, asked).Err? ==> Tells(Failure(net, n, q), net.resolve(n, asked).error)
    ensures net.resolve(n, asked).Ok? ==>
              Failure(net, n, q) == None && Answers(net, n, q) == AddressRecords(q, net.resolve(n, asked).value)
  {
    assert q.name == asked + "." ==> q.name[..|q.name| - 1] == asked;
  }

  /** A question for the name of an address. */
  lemma PointerQuestion(net: Net, n: nat, q: Query)
    requires q.klass == IN && q.kind == PTR
    ensures match net.parseArpa(q.name)
            case None => Failure(net, n, q) == Some(FormErr)
            case Some(ip) =>
              match net.resolvePtr(n, ip)
              case Err(notFound) => Tells(Failure(net, n, q), notFound)
              case Ok(names) =>
                if forall i | 0 <= i < |names| :: net.isName(names[i])
                then && Failure(net, n, q) == None && |Answers(net, n, q)| == |names|
                     && forall i | 0 <= i < |names| :: Answers(net, n, q)[i] == Pointer(q.name, 3600, names[i])
                else Failure(net, n, q) == Some(ServFail)
  {
  }

  /** Any other question is not implemented. */
  lemma OtherQuestion(net: Net, n: nat, q: Query)
    ensures Failure(net, n, q) == Some(NotImp) <==> q.klass != IN || q.kind.OtherType?
  {
  }

  /** These two laws determine the records of addresses: one for each address of the kind asked for, in
      the order that the addresses came in. */
  lemma RecordOfAddress(q: Query, ip: Ip)
    ensures AddressRecords(q, [ip])
         == if (ip.V4? && q.kind == A) || (ip.V6? && q.kind == AAAA) then [Address(q.name, 3600, ip)] else []
  {
    assert [ip][..0] == [];
  }

  lemma {:induction false} AddressRecordsConcat(q: Query, a: seq<Ip>, b: seq<Ip>)
    ensures AddressRecords(q, []) == []
    ensures AddressRecords(q, a + b) == AddressRecords(q, a) + AddressRecords(q, b)
  {
    if b == [] {
      assert a + b == a;
    } else {
      var n := |b| - 1;
      assert (a + b)[..|a| + n] == a + b[..n];
      AddressRecordsConcat(q, a, b[..n]);
    }
  }

  /** Every answer is a record of some question of the message: it has the question's name. */
  lemma {:induction false} AnswersAnswerQuestions(net: Net, queries: seq<Query>, n: nat, r: Record)
    requires n <= |queries| && forall i | 0 <= i < n :: Failure(net, i, queries[i]).None?
    requires r in AnswersUpTo(net, queries, n)
    ensures exists i :: 0 <= i < n && r.name == queries[i].name && r.ttl == TTL
                        && if r.Pointer? then queries[i].kind.PTR? else MatchesKind(r.ip, queries[i].kind)
  {
    var q := queries[n - 1];
    if r in AnswersUpTo(net, queries, n - 1) {
      AnswersAnswerQuestions(net, queries, n - 1, r);
    } else if q.kind.PTR? {
      assert r in Answers(net, n - 1, q);
    } else {
      AddressRecordsFit(q, net.resolve(n - 1, Relative(q.name)).value, r);
    }
  }

  lemma {:induction false} AddressRecordsFit(q: Query, ips: seq<Ip>, r: Record)
    requires r in AddressRecords(q, ips)
    ensures r.Address? && r.name == q.name && r.ttl == TTL && MatchesKind(r.ip, q.kind)
  {
    if r in AddressRecords(q, ips[..|ips| - 1]) {
      AddressRecordsFit(q, ips[..|ips| - 1], r);
    }
  }
}
