/** The client's watch over the lists of recommended and required subprotocols.

    A subprotocol is a name and a version.  What the watcher sees when it asks the directory for the
    lists, and the overrides configured at that moment, are part of each event. */
module ProtoStatus {
  import opened Wrappers

  type Protocols = set<(nat, nat)>

  datatype Lists = Lists(recommended: Protocols, required: Protocols)

  /** The lists of one consensus. */
  datatype Statuses = Statuses(client: Lists, relay: Lists)

  datatype SupportError = MissingRequired(missing: Protocols) | MissingRecommended(missing: Protocols)

  function CheckProtocols(lists: Lists, supported: Protocols): Result<Unit, SupportError> {
    if lists.required - supported != {} then Err(MissingRequired(lists.required - supported))
    else if lists.recommended - supported != {} then Err(MissingRecommended(lists.recommended - supported))
    else Ok(Unit)
  }

  /** Required subprotocols come first: missing ones are reported if there are any, else missing
      recommended ones if there are any. */
  lemma CheckReports(lists: Lists, supported: Protocols)
    ensures CheckProtocols(lists, supported).Ok? <==> lists.required <= supported && lists.recommended <= supported
    ensures CheckProtocols(lists, supported).Err? ==>
              var e := CheckProtocols(lists, supported).error;
              && (e.MissingRequired? <==> !(lists.required <= supported))
              && e.missing != {} && e.missing * supported == {}
              && e.missing + (supported * (if e.MissingRequired? then lists.required else lists.recommended))
                 == if e.MissingRequired? then lists.required else lists.recommended
  {
    assert lists.required - supported == {} ==> forall p | p in lists.required :: p in supported || p in lists.required - supported;
    assert lists.recommended - supported == {} ==> forall p | p in lists.recommended :: p in supported || p in lists.recommended - supported;
  }

  /** The fatal problem with a status, if it has one. */
  function Evaluate(statuses: Statuses, supported: Protocols, ignored: Protocols): Option<SupportError> {
    match CheckProtocols(statuses.client, supported)
    case Ok(_) => None
    case Err(MissingRecommended(_)) => None
    case Err(MissingRequired(missing)) =>
      if missing - ignored == {} then None else Some(MissingRequired(missing))
  }

  /** A client subprotocol is required that the software lacks and the user does not ignore. */
  ghost predicate Uncovered(statuses: Statuses, supported: Protocols, ignored: Protocols) {
    exists p :: p in statuses.client.required && p !in supported && p !in ignored
  }

  /** A status is fatal exactly when it is uncovered; the error names every required subprotocol that
      is missing, ignored or not, and nothing else. */
  lemma FatalIffUncovered(statuses: Statuses, supported: Protocols, ignored: Protocols)
    ensures Evaluate(statuses, supported, ignored).Some? <==> Uncovered(statuses, supported, ignored)
    ensures Evaluate(statuses, supported, ignored).Some? ==>
              && Evaluate(statuses, supported, ignored).value.MissingRequired?
              && forall p :: p in Evaluate(statuses, supported, ignored).value.missing
                        <==> p in statuses.client.required && p !in supported
  {
    var missing := statuses.client.required - supported;
    if Uncovered(statuses, supported, ignored) {
      var p :| p in statuses.client.required && p !in supported && p !in ignored;
      assert p in missing && p in missing - ignored;
    } else {
      assert forall p :: p in missing ==> p in ignored;
      assert missing - ignored == {};
    }
  }

  // ---------------------------------------------------------------------------------------------
  // The watcher
  // ---------------------------------------------------------------------------------------------

  /** A status that the directory gave, when it was published, and what the user ignored then. */
  datatype Sight = Sight(published: nat, statuses: Statuses, ignored: Protocols)

  datatype Event = OtherEvent | ProviderGone | NothingThere | Seen(sight: Sight)

  /** What the watcher does its work by: the time the software was published and what it supports. */
  datatype Software = Software(published: nat, supported: Protocols)

  predicate IsFatal(v: Sight, sw: Software) {
    Evaluate(v.statuses, sw.supported, v.ignored).Some?
  }

  /** What is seen until the directory goes away. */
  function Sights(es: seq<Event>): seq<Sight> {
    if es == [] || es[0].ProviderGone? then []
    else if es[0].Seen? then [es[0].sight] + Sights(es[1..])
    else Sights(es[1..])
  }

  function Timely(vs: seq<Sight>, sw: Software): seq<Sight> {
    if vs == [] then []
    else if vs[0].published >= sw.published then [vs[0]] + Timely(vs[1..], sw)
    else Timely(vs[1..], sw)
  }

  /** Without the repeats of what came just before, which for the first is `previous`. */
  function WithoutRepeats(vs: seq<Sight>, previous: Option<Statuses>): seq<Sight> {
    if vs == [] then []
    else
      var rest := WithoutRepeats(vs[1..], Some(vs[0].statuses));
      if previous == Some(vs[0].statuses) then rest else [vs[0]] + rest
  }

  function UpToFatal(vs: seq<Sight>, sw: Software): seq<Sight> {
    if vs == [] then []
    else if IsFatal(vs[0], sw) then [vs[0]]
    else [vs[0]] + UpToFatal(vs[1..], sw)
  }

  function Evaluated(es: seq<Event>, initial: Option<Statuses>, sw: Software): seq<Sight> {
    UpToFatal(WithoutRepeats(Timely(Sights(es), sw), initial), sw)
  }

  /** The problems that the fatal handler is told of. */
  function Fatals(vs: seq<Sight>, sw: Software): (r: seq<SupportError>) {
    if vs == [] then []
    else
      var first := Evaluate(vs[0].statuses, sw.supported, vs[0].ignored);
      (if first.Some? then [first.value] else []) + Fatals(vs[1..], sw)
  }

  /** One turn of the loop, in terms of what is left to evaluate. */
  lemma EvaluatedStep(es: seq<Event>, last: Option<Statuses>, sw: Software)
    requires es != []
    ensures match es[0]
            case OtherEvent => Evaluated(es, last, sw) == Evaluated(es[1..], last, sw)
            case NothingThere => Evaluated(es, last, sw) == Evaluated(es[1..], last, sw)
            case ProviderGone => Evaluated(es, last, sw) == []
            case Seen(v) =>
              if v.published < sw.published || last == Some(v.statuses) then
                Evaluated(es, last, sw) == Evaluated(es[1..], last, sw)
              else if IsFatal(v, sw) then Evaluated(es, last, sw) == [v]
              else Evaluated(es, last, sw) == [v] + Evaluated(es[1..], Some(v.statuses), sw)
  {
    if es[0].Seen? {
      var v, rest := es[0].sight, Sights(es[1..]);
      var vs := [v] + rest;
      assert vs[1..] == rest;
      if v.published >= sw.published {
        var ts := [v] + Timely(rest, sw);
        assert ts[1..] == Timely(rest, sw);
        var ws := [v] + WithoutRepeats(Timely(rest, sw), Some(v.statuses));
        assert ws[1..] == WithoutRepeats(Timely(rest, sw), Some(v.statuses));
      }
    }
  }

  lemma {:induction false} FatalsConcat(a: seq<Sight>, b: seq<Sight>, sw: Software)
    ensures Fatals(a + b, sw) == Fatals(a, sw) + Fatals(b, sw)
  {
    if a == [] {
      assert a + b == b;
    } else {
      assert (a + b)[1..] == a[1..] + b;
      FatalsConcat(a[1..], b, sw);
    }
  }

  lemma AddFatal(vs: seq<Sight>, v: Sight, sw: Software)
    ensures Fatals(vs + [v], sw)
         == match Evaluate(v.statuses, sw.supported, v.ignored)
            case None => Fatals(vs, sw)
            case Some(problem) => Fatals(vs, sw) + [problem]
  {
    FatalsConcat(vs, [v], sw);
    assert [v][1..] == [];
  }

  lemma AddOne(vs: seq<Sight>, v: Sight, rest: seq<Sight>)
    ensures vs + ([v] + rest) == (vs + [v]) + rest
  {
  }

  /** The watcher: it keeps the last status that it evaluated, and compares each new one with that. */
  method Watch(es: seq<Event>, initial: Option<Statuses>, sw: Software)
    returns (evaluated: seq<Sight>, fatals: seq<SupportError>)
    ensures evaluated == Evaluated(es, initial, sw)
    ensures fatals == Fatals(evaluated, sw)
  {
    evaluated, fatals := [], [];
    var last := initial;
    var i := 0;
    assert es[0..] == es;
    while i < |es|
      invariant 0 <= i <= |es|
      invariant Evaluated(es, initial, sw) == evaluated + Evaluated(es[i..], last, sw)
      invariant fatals == Fatals(evaluated, sw)
    {
      var e := es[i];
      EvaluatedStep(es[i..], last, sw);
      assert es[i..][1..] == es[i + 1..];
      i := i + 1;
      match e {
        case OtherEvent =>
        case NothingThere =>
        case ProviderGone =>
          return;
        case Seen(v) =>
          if v.published >= sw.published && last != Some(v.statuses) {
            AddFatal(evaluated, v, sw);
            AddOne(evaluated, v, Evaluated(es[i..], Some(v.statuses), sw));
            evaluated := evaluated + [v];
            var problem := Evaluate(v.statuses, sw.supported, v.ignored);
            if problem.Some? {
              fatals := fatals + [problem.value];
              return;
            }
            last := Some(v.statuses);
          }
      }
    }
  }

  // ---------------------------------------------------------------------------------------------
  // What the watcher promises
  // ---------------------------------------------------------------------------------------------

  lemma {:induction false} UpToFatalEnds(vs: seq<Sight>, sw: Software)
    ensures forall i | 0 <= i < |UpToFatal(vs, sw)| - 1 :: !IsFatal(UpToFatal(vs, sw)[i], sw)
    ensures UpToFatal(vs, sw) <= vs
    ensures UpToFatal(vs, sw) == vs || (UpToFatal(vs, sw) != [] && IsFatal(UpToFatal(vs, sw)[|UpToFatal(vs, sw)| - 1], sw))
  {
    if vs != [] && !IsFatal(vs[0], sw) {
      UpToFatalEnds(vs[1..], sw);
    }
  }

  lemma {:induction false} NoFatals(vs: seq<Sight>, sw: Software)
    requires forall i | 0 <= i < |vs| :: !IsFatal(vs[i], sw)
    ensures Fatals(vs, sw) == []
  {
    if vs != [] {
      NoFatals(vs[1..], sw);
    }
  }

  /** The handler fires at most once, and then for the last status evaluated. */
  lemma FatalOnce(es: seq<Event>, initial: Option<Statuses>, sw: Software)
    ensures var done := Evaluated(es, initial, sw);
            var fatals := Fatals(done, sw);
            && |fatals| <= 1
            && (fatals != [] <==> done != [] && IsFatal(done[|done| - 1], sw))
            && (fatals != [] ==> Evaluate(done[|done| - 1].statuses, sw.supported, done[|done| - 1].ignored) == Some(fatals[0]))
  {
    var done := Evaluated(es, initial, sw);
    UpToFatalEnds(WithoutRepeats(Timely(Sights(es), sw), initial), sw);
    if done != [] {
      var n := |done| - 1;
      assert done == done[..n] + [done[n]];
      NoFatals(done[..n], sw);
      FatalsConcat(done[..n], [done[n]], sw);
      assert Fatals([done[n]][1..], sw) == [];
    }
  }

  ghost predicate SomeFatal(vs: seq<Sight>, sw: Software) {
    exists i :: 0 <= i < |vs| && IsFatal(vs[i], sw)
  }

  lemma {:induction false} UpToFatalIff(vs: seq<Sight>, sw: Software)
    ensures SomeFatal(UpToFatal(vs, sw), sw) <==> SomeFatal(vs, sw)
  {
    if vs != [] {
      if IsFatal(vs[0], sw) {
        assert IsFatal(UpToFatal(vs, sw)[0], sw);
      } else {
        UpToFatalIff(vs[1..], sw);
        SomeFatalCons(vs, sw);
        assert UpToFatal(vs, sw)[1..] == UpToFatal(vs[1..], sw);
        SomeFatalCons(UpToFatal(vs, sw), sw);
      }
    }
  }

  lemma SomeFatalCons(vs: seq<Sight>, sw: Software)
    requires vs != []
    ensures SomeFatal(vs, sw) <==> IsFatal(vs[0], sw) || SomeFatal(vs[1..], sw)
  {
    if i :| 0 <= i < |vs| && IsFatal(vs[i], sw) {
      assert i > 0 ==> IsFatal(vs[1..][i - 1], sw);
    }
    if i :| 0 <= i < |vs[1..]| && IsFatal(vs[1..][i], sw) {
      assert IsFatal(vs[i + 1], sw);
    }
  }

  /** What the user ignores did not change. */
  ghost predicate SameIgnored(vs: seq<Sight>, ignored: Protocols) {
    forall i | 0 <= i < |vs| :: vs[i].ignored == ignored
  }

  lemma {:induction false} RepeatsDoNotMatter(vs: seq<Sight>, previous: Option<Statuses>, sw: Software, ignored: Protocols)
    requires SameIgnored(vs, ignored)
    requires previous.Some? ==> Evaluate(previous.value, sw.supported, ignored).None?
    ensures SomeFatal(WithoutRepeats(vs, previous), sw) <==> SomeFatal(vs, sw)
  {
    if vs != [] {
      var rest := WithoutRepeats(vs[1..], Some(vs[0].statuses));
      SomeFatalCons(vs, sw);
      if IsFatal(vs[0], sw) {
        assert WithoutRepeats(vs, previous)[0] == vs[0];
      } else {
        RepeatsDoNotMatter(vs[1..], Some(vs[0].statuses), sw, ignored);
        if previous != Some(vs[0].statuses) {
          assert ([vs[0]] + rest)[1..] == rest;
          SomeFatalCons([vs[0]] + rest, sw);
        }
      }
    }
  }

  lemma SomeFatalIffFatals(es: seq<Event>, initial: Option<Statuses>, sw: Software)
    ensures Fatals(Evaluated(es, initial, sw), sw) != [] <==> SomeFatal(Evaluated(es, initial, sw), sw)
  {
    var done := Evaluated(es, initial, sw);
    FatalOnce(es, initial, sw);
    UpToFatalEnds(WithoutRepeats(Timely(Sights(es), sw), initial), sw);
    if i :| 0 <= i < |done| && IsFatal(done[i], sw) {
      assert i == |done| - 1;
    }
  }

  /** As long as the overrides do not change, the handler fires exactly when some status seen that is
      not older than the software is uncovered. */
  lemma FiresIffUncovered(es: seq<Event>, initial: Option<Statuses>, sw: Software, ignored: Protocols)
    requires SameIgnored(Timely(Sights(es), sw), ignored)
    requires initial.Some? ==> Evaluate(initial.value, sw.supported, ignored).None?
    ensures Fatals(Evaluated(es, initial, sw), sw) != []
       <==> exists i :: 0 <= i < |Timely(Sights(es), sw)|
                     && Uncovered(Timely(Sights(es), sw)[i].statuses, sw.supported, ignored)
  {
    var vs := Timely(Sights(es), sw);
    SomeFatalIffFatals(es, initial, sw);
    UpToFatalIff(WithoutRepeats(vs, initial), sw);
    RepeatsDoNotMatter(vs, initial, sw, ignored);
    forall i | 0 <= i < |vs|
      ensures IsFatal(vs[i], sw) <==> Uncovered(vs[i].statuses, sw.supported, ignored)
    {
      FatalIffUncovered(vs[i].statuses, sw.supported, ignored);
    }
  }

  /** The status of sight `i` is not the one that came just before. */
  ghost predicate IsNews(vs: seq<Sight>, previous: Option<Statuses>, i: nat)
    requires i < |vs|
  {
    (if i == 0 then previous else Some(vs[i - 1].statuses)) != Some(vs[i].statuses)
  }

  ghost predicate SomeNewsFatal(vs: seq<Sight>, previous: Option<Statuses>, sw: Software) {
    exists i :: 0 <= i < |vs| && IsFatal(vs[i], sw) && IsNews(vs, previous, i)
  }

  lemma NewsFatalCons(vs: seq<Sight>, previous: Option<Statuses>, sw: Software)
    requires vs != []
    ensures SomeNewsFatal(vs, previous, sw)
       <==> || (IsFatal(vs[0], sw) && previous != Some(vs[0].statuses))
            || SomeNewsFatal(vs[1..], Some(vs[0].statuses), sw)
  {
    if i :| 0 <= i < |vs| && IsFatal(vs[i], sw) && IsNews(vs, previous, i) {
      assert i > 0 ==> IsFatal(vs[1..][i - 1], sw) && IsNews(vs[1..], Some(vs[0].statuses), i - 1);
    }
    if IsFatal(vs[0], sw) && previous != Some(vs[0].statuses) {
      assert IsNews(vs, previous, 0);
    }
    if i :| 0 <= i < |vs[1..]| && IsFatal(vs[1..][i], sw) && IsNews(vs[1..], Some(vs[0].statuses), i) {
      assert IsFatal(vs[i + 1], sw) && IsNews(vs, previous, i + 1);
    }
  }

  lemma {:induction false} OnlyNewsIsEvaluated(vs: seq<Sight>, previous: Option<Statuses>, sw: Software)
    ensures SomeFatal(WithoutRepeats(vs, previous), sw) <==> SomeNewsFatal(vs, previous, sw)
  {
    if vs != [] {
      var rest := WithoutRepeats(vs[1..], Some(vs[0].statuses));
      OnlyNewsIsEvaluated(vs[1..], Some(vs[0].statuses), sw);
      NewsFatalCons(vs, previous, sw);
      if previous != Some(vs[0].statuses) {
        assert ([vs[0]] + rest)[1..] == rest;
        SomeFatalCons([vs[0]] + rest, sw);
      }
    }
  }

  /** Whatever the user ignores and when, the handler fires exactly when some status seen that is not
      older than the software is uncovered and is not the one that came just before it. */
  lemma FiresIffNewsIsUncovered(es: seq<Event>, initial: Option<Statuses>, sw: Software)
    ensures Fatals(Evaluated(es, initial, sw), sw) != []
       <==> exists i :: 0 <= i < |Timely(Sights(es), sw)|
                     && Uncovered(Timely(Sights(es), sw)[i].statuses, sw.supported, Timely(Sights(es), sw)[i].ignored)
                     && IsNews(Timely(Sights(es), sw), initial, i)
  {
    var vs := Timely(Sights(es), sw);
    SomeFatalIffFatals(es, initial, sw);
    UpToFatalIff(WithoutRepeats(vs, initial), sw);
    OnlyNewsIsEvaluated(vs, initial, sw);
    forall i | 0 <= i < |vs|
      ensures IsFatal(vs[i], sw) <==> Uncovered(vs[i].statuses, sw.supported, vs[i].ignored)
    {
      FatalIffUncovered(vs[i].statuses, sw.supported, vs[i].ignored);
    }
  }

  /** When they do change, an uncovered status can go unnoticed: it was ignored when it was evaluated,
      it is no longer ignored when it is seen again, and a repeat is not evaluated. */
  lemma ShrunkOverrideGoesUnnoticed(p: (nat, nat)) returns (es: seq<Event>, sw: Software)
    ensures Fatals(Evaluated(es, None, sw), sw) == []
    ensures |Timely(Sights(es), sw)| == 2
    ensures Uncovered(Timely(Sights(es), sw)[1].statuses, sw.supported, Timely(Sights(es), sw)[1].ignored)
  {
    sw := Software(0, {});
    var statuses := Statuses(Lists({}, {p}), Lists({}, {}));
    var a, b := Sight(0, statuses, {p}), Sight(0, statuses, {});
    es := [Seen(a), Seen(b)];
    assert es[1..] == [Seen(b)] && es[1..][1..] == [];
    assert Sights(es[1..]) == [b];
    assert Sights(es) == [a, b];
    assert [a, b][1..] == [b];
    assert Timely([b], sw) == [b];
    assert Timely([a, b], sw) == [a, b];
    assert WithoutRepeats([b], Some(statuses)) == [];
    assert WithoutRepeats([a, b], None) == [a];
    assert {p} - {} == {p} && {p} - {p} == {};
    assert !IsFatal(a, sw);
    assert UpToFatal([a], sw) == [a];
    NoFatals([a], sw);
    assert p in b.statuses.client.required;
  }

  // ---------------------------------------------------------------------------------------------
  // The check at startup
  // ---------------------------------------------------------------------------------------------

  /** What the cached status comes to: a refusal to start, or the status that the watcher starts from. */
  function Startup(cached: Option<Sight>, sw: Software): Result<Option<Statuses>, SupportError> {
    match cached
    case None => Ok(None)
    case Some(v) =>
      if v.published < sw.published then Ok(None)
      else
        match Evaluate(v.statuses, sw.supported, v.ignored)
        case Some(problem) => Err(problem)
        case None => Ok(Some(v.statuses))
  }

  /** The watcher starts from the cached status exactly if that is not older than the software and is
      covered; an older one is ignored, and an uncovered one is a refusal to start. */
  lemma StartupDecides(v: Sight, sw: Software)
    ensures Startup(None, sw) == Ok(None)
    ensures var timely, bad := v.published >= sw.published, Uncovered(v.statuses, sw.supported, v.ignored);
            && (Startup(Some(v), sw).Err? <==> timely && bad)
            && (Startup(Some(v), sw) == Ok(Some(v.statuses)) <==> timely && !bad)
            && (Startup(Some(v), sw) == Ok(None) <==> !timely)
  {
    FatalIffUncovered(v.statuses, sw.supported, v.ignored);
  }

  /** So a status that is cached and then seen again is evaluated once. */
  lemma CachedIsEvaluatedOnce(v: Sight, seen: Sight, es: seq<Event>, sw: Software)
    requires Startup(Some(v), sw).Ok? && v.published >= sw.published && seen.statuses == v.statuses
    ensures Evaluated([Seen(seen)] + es, Startup(Some(v), sw).value, sw) == Evaluated(es, Startup(Some(v), sw).value, sw)
  {
    var all := [Seen(seen)] + es;
    assert all[1..] == es;
    EvaluatedStep(all, Startup(Some(v), sw).value, sw);
  }

  /** The software runs on exactly as long as no status that is not older than it, cached or seen
      later, requires what it lacks and the user does not ignore. */
  lemma RunsOnIffCovered(cached: Option<Sight>, es: seq<Event>, sw: Software, ignored: Protocols)
    requires cached.Some? ==> cached.value.ignored == ignored
    requires SameIgnored(Timely(Sights(es), sw), ignored)
    ensures (Startup(cached, sw).Ok? && Fatals(Evaluated(es, Startup(cached, sw).value, sw), sw) == [])
       <==> && (cached.Some? && cached.value.published >= sw.published ==>
                  !Uncovered(cached.value.statuses, sw.supported, ignored))
            && forall i | 0 <= i < |Timely(Sights(es), sw)| ::
                 !Uncovered(Timely(Sights(es), sw)[i].statuses, sw.supported, ignored)
  {
    if cached.Some? {
      FatalIffUncovered(cached.value.statuses, sw.supported, ignored);
    }
    match Startup(cached, sw)
    case Err(_) =>
    case Ok(initial) => FiresIffUncovered(es, initial, sw, ignored);
  }
}
