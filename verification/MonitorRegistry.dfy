/**
 The monitors VRAdminService counts: they are counted in on registration and out when their process dies, and
 the last one to go has the display settings put back.
 */
module MonitorRegistry {
  import opened CStrings
  import opened Runs

  // Steps and what they ask for

  type Monitor = nat

  datatype Request = SetGralloc(value: string) | SetAutorefresh(value: string)

  /** One atomic call, with what its environment answers: whether linkToDeath works, whether the write lands. */
  datatype Event =
    | Register(monitor: Option<Monitor>, links: bool)
    | Died(lost: Monitor, written: bool)
    | Enter(written: bool)
    | Leave(written: bool)

  datatype Registry = Registry(
    cbs: seq<Monitor>, count: int, links: set<Monitor>, gralloc: string, requests: seq<Request>)

  function Both(value: string): seq<Request> {
    [SetGralloc(value), SetAutorefresh(value)]
  }

  const RESTORE: seq<Request> := Both("0")

  function Remove(cbs: seq<Monitor>, m: Monitor): seq<Monitor> {
    if cbs == [] then []
    else if cbs[0] == m then cbs[1..]
    else [cbs[0]] + Remove(cbs[1..], m)
  }

  function Put(r: Registry, value: string, written: bool): Registry {
    r.(gralloc := if written then value else r.gralloc, requests := r.requests + Both(value))
  }

  function Step(r: Registry, e: Event): Registry {
    match e
    case Register(None, _) => r
    case Register(Some(m), links) =>
      if m in r.cbs then r
      else r.(cbs := r.cbs + [m], count := r.count + 1, links := if links then r.links + {m} else r.links)
    case Died(m, written) =>
      var left := r.(cbs := Remove(r.cbs, m), count := r.count - 1, links := r.links - {m});
      if left.count == 0 then Put(left, "0", written) else left
    case Enter(written) => Put(r, "1", written)
    case Leave(written) => Put(r, "0", written)
  }

  /** A death is reported once, and only over a link that was made. */
  predicate Enabled(r: Registry, e: Event) {
    e.Died? ==> e.lost in r.links
  }

  // Runs

  const EMPTY: Registry := Registry([], 0, {}, "", [])

  const SERVICE: Machine<Registry, Event> := Machine(EMPTY, Step, Enabled)

  // The count

  predicate Distinct(cbs: seq<Monitor>) {
    cbs == [] || (cbs[0] !in cbs[1..] && Distinct(cbs[1..]))
  }

  predicate Inv(r: Registry) {
    && Distinct(r.cbs)
    && r.count == |r.cbs|
    && forall m :: m in r.links ==> m in r.cbs
  }

  lemma {:induction false} RemoveOne(cbs: seq<Monitor>, m: Monitor)
    requires Distinct(cbs)
    ensures Distinct(Remove(cbs, m))
    ensures forall k :: k in Remove(cbs, m) <==> k in cbs && k != m
    ensures m in cbs ==> |Remove(cbs, m)| == |cbs| - 1
  {
    if cbs != [] && cbs[0] != m {
      RemoveOne(cbs[1..], m);
      var rest := Remove(cbs[1..], m);
      assert ([cbs[0]] + rest)[1..] == rest;
    }
  }

  lemma {:induction false} AddOne(cbs: seq<Monitor>, m: Monitor)
    requires Distinct(cbs) && m !in cbs
    ensures Distinct(cbs + [m])
  {
    if cbs != [] {
      AddOne(cbs[1..], m);
      assert (cbs + [m])[1..] == cbs[1..] + [m];
    }
  }

  lemma {:induction false} StepKeepsInv(r: Registry, e: Event)
    requires Inv(r) && Enabled(r, e)
    ensures Inv(Step(r, e))
  {
    if e.Register? && e.monitor.Some? && e.monitor.value !in r.cbs {
      AddOne(r.cbs, e.monitor.value);
    }
    if e.Died? {
      RemoveOne(r.cbs, e.lost);
    }
  }

  lemma {:induction false} RunKeepsInv(h: seq<Event>)
    requires IsRun(SERVICE, h)
    ensures Inv(After(SERVICE, h))
  {
    if h != [] {
      RunKeepsInv(h[..|h| - 1]);
      StepKeepsInv(After(SERVICE, h[..|h| - 1]), h[|h| - 1]);
    }
  }

  // What the history alone says

  /** The monitor's last registration has not been followed by its death. */
  predicate Present(h: seq<Event>, m: Monitor) {
    h != [] &&
    match h[|h| - 1]
    case Register(Some(k), _) => k == m || Present(h[..|h| - 1], m)
    case Died(k, _) => k != m && Present(h[..|h| - 1], m)
    case _ => Present(h[..|h| - 1], m)
  }

  ghost predicate Nobody(h: seq<Event>) {
    forall m :: !Present(h, m)
  }

  /** The requests a history calls for: one pair for each entry and exit, and one for each death that leaves nobody. */
  ghost function CalledFor(h: seq<Event>): seq<Request> {
    if h == [] then []
    else
      var before := CalledFor(h[..|h| - 1]);
      match h[|h| - 1]
      case Register(_, _) => before
      case Died(_, _) => if Nobody(h) then before + [SetGralloc("0"), SetAutorefresh("0")] else before
      case Enter(_) => before + [SetGralloc("1"), SetAutorefresh("1")]
      case Leave(_) => before + [SetGralloc("0"), SetAutorefresh("0")]
  }

  /** The value last written according to the history: by an entry, an exit, or a death that leaves nobody. */
  ghost function LastWritten(h: seq<Event>): string {
    if h == [] then ""
    else
      var before := LastWritten(h[..|h| - 1]);
      match h[|h| - 1]
      case Register(_, _) => before
      case Died(_, written) => if Nobody(h) && written then "0" else before
      case Enter(written) => if written then "1" else before
      case Leave(written) => if written then "0" else before
  }

  lemma {:induction false} CountsThePresent(h: seq<Event>)
    requires IsRun(SERVICE, h)
    ensures forall m :: m in After(SERVICE, h).cbs <==> Present(h, m)
  {
    if h != [] {
      var before := h[..|h| - 1];
      CountsThePresent(before);
      RunKeepsInv(before);
      if h[|h| - 1].Died? {
        RemoveOne(After(SERVICE, before).cbs, h[|h| - 1].lost);
      }
    }
  }

  lemma {:induction false} NobodyIff(h: seq<Event>)
    requires IsRun(SERVICE, h)
    ensures After(SERVICE, h).count == 0 <==> Nobody(h)
  {
    CountsThePresent(h);
    RunKeepsInv(h);
    var cbs := After(SERVICE, h).cbs;
    if cbs != [] {
      assert cbs[0] in cbs;
      assert Present(h, cbs[0]);
    }
  }

  /** Over every run the requests are the ones the history calls for, no more and in that order. */
  lemma {:induction false} RequestsAsCalledFor(h: seq<Event>)
    requires IsRun(SERVICE, h)
    ensures After(SERVICE, h).requests == CalledFor(h)
  {
    if h != [] {
      RequestsAsCalledFor(h[..|h| - 1]);
      NobodyIff(h);
    }
  }

  /** Over every run the property holds what was last written. */
  lemma {:induction false} GrallocAsWritten(h: seq<Event>)
    requires IsRun(SERVICE, h)
    ensures After(SERVICE, h).gralloc == LastWritten(h)
  {
    if h != [] {
      GrallocAsWritten(h[..|h| - 1]);
      NobodyIff(h);
    }
  }

  /** Right after the last monitor is gone the property reads "0", provided the write landed. */
  lemma {:induction false} LastOneRestores(h: seq<Event>)
    requires IsRun(SERVICE, h) && h != [] && h[|h| - 1].Died? && Nobody(h)
    ensures After(SERVICE, h).requests ==
            After(SERVICE, h[..|h| - 1]).requests + [SetGralloc("0"), SetAutorefresh("0")]
    ensures h[|h| - 1].written ==> After(SERVICE, h).gralloc == "0"
  {
    NobodyIff(h);
  }

  // A link that failed

  /** The last step is a death, and it put the settings back. */
  predicate RestoresLast(h: seq<Event>) {
    && h != []
    && h[|h| - 1].Died?
    && After(SERVICE, h).requests == After(SERVICE, h[..|h| - 1]).requests + RESTORE
  }

  predicate AllLinked(r: Registry) {
    forall m :: m in r.cbs ==> m in r.links
  }

  /** A monitor counted without a link is counted for ever. */
  lemma {:induction false} StaysCounted(h: seq<Event>, more: seq<Event>, m: Monitor)
    requires IsRun(SERVICE, h + more)
    requires m in After(SERVICE, h).cbs && m !in After(SERVICE, h).links
    ensures m in After(SERVICE, h + more).cbs && m !in After(SERVICE, h + more).links
    decreases |more|
  {
    if more == [] {
      assert h + more == h;
    } else {
      var n := |more| - 1;
      assert h + more == (h + more[..n]) + [more[n]];
      Extend(SERVICE, h + more[..n], more[n]);
      StaysCounted(h, more[..n], m);
      RunKeepsInv(h + more[..n]);
      if more[n].Died? {
        RemoveOne(After(SERVICE, h + more[..n]).cbs, more[n].lost);
      }
    }
  }

  lemma {:induction false} RestoreMeansNobody(h: seq<Event>)
    requires IsRun(SERVICE, h) && RestoresLast(h)
    ensures After(SERVICE, h).cbs == []
  {
    RunKeepsInv(h);
    var before := After(SERVICE, h[..|h| - 1]);
    assert |before.requests + RESTORE| == |before.requests| + 2;
  }

  /** With every counted monitor linked, their deaths one after another end in a restore. */
  lemma {:induction false} AllMayDie(h: seq<Event>) returns (more: seq<Event>)
    requires IsRun(SERVICE, h) && AllLinked(After(SERVICE, h)) && After(SERVICE, h).cbs != []
    ensures more != [] && IsRun(SERVICE, h + more) && RestoresLast(h + more)
    decreases |After(SERVICE, h).cbs|
  {
    RunKeepsInv(h);
    var e := Died(After(SERVICE, h).cbs[0], true);
    Extend(SERVICE, h, e);
    FirstDies(After(SERVICE, h));
    more := [e];
    if |After(SERVICE, h).cbs| == 1 {
      LastRestores(h, e);
    } else {
      var rest := AllMayDie(h + [e]);
      more := more + rest;
      assert h + more == (h + [e]) + rest;
    }
  }

  lemma {:induction false} LastRestores(h: seq<Event>, e: Event)
    requires e.Died? && Step(After(SERVICE, h), e).requests == After(SERVICE, h).requests + RESTORE
    ensures RestoresLast(h + [e])
  {
    Extend(SERVICE, h, e);
    assert (h + [e])[..|h|] == h;
  }

  lemma {:induction false} FirstDies(r: Registry)
    requires Inv(r) && AllLinked(r) && r.cbs != []
    ensures var e := Died(r.cbs[0], true);
            var t := Step(r, e);
            && Enabled(r, e) && AllLinked(t) && |t.cbs| == |r.cbs| - 1
            && (|r.cbs| == 1 ==> t.requests == r.requests + RESTORE)
  {
    RemoveOne(r.cbs, r.cbs[0]);
  }

  /** A restore can still come exactly while every counted monitor is linked. */
  lemma {:induction false} RestorableIff(h: seq<Event>)
    requires IsRun(SERVICE, h)
    ensures (exists more :: more != [] && IsRun(SERVICE, h + more) && RestoresLast(h + more)) <==>
            AllLinked(After(SERVICE, h))
  {
    if AllLinked(After(SERVICE, h)) {
      if After(SERVICE, h).cbs != [] {
        var more := AllMayDie(h);
      } else {
        var e := Register(Some(0), true);
        Extend(SERVICE, h, e);
        var rest := AllMayDie(h + [e]);
        assert h + ([e] + rest) == (h + [e]) + rest;
      }
    } else {
      var m :| m in After(SERVICE, h).cbs && m !in After(SERVICE, h).links;
      forall more | IsRun(SERVICE, h + more) && RestoresLast(h + more) ensures false {
        StaysCounted(h, more, m);
        RestoreMeansNobody(h + more);
      }
    }
  }

  /** Some registration counted its monitor and then failed to link it. */
  predicate LinkFailed(h: seq<Event>) {
    h != [] &&
    (LinkFailed(h[..|h| - 1]) ||
     var e := h[|h| - 1];
     e.Register? && e.monitor.Some? && !e.links && !Present(h[..|h| - 1], e.monitor.value))
  }

  /** And that is so exactly until the first failed linkToDeath. */
  lemma {:induction false} AllLinkedIff(h: seq<Event>)
    requires IsRun(SERVICE, h)
    ensures AllLinked(After(SERVICE, h)) <==> !LinkFailed(h)
  {
    if h != [] {
      var before, e := h[..|h| - 1], h[|h| - 1];
      AllLinkedIff(before);
      CountsThePresent(before);
      RunKeepsInv(before);
      if LinkFailed(before) {
        var m :| m in After(SERVICE, before).cbs && m !in After(SERVICE, before).links;
        assert h == before + [e];
        StaysCounted(before, [e], m);
      } else if e.Died? {
        RemoveOne(After(SERVICE, before).cbs, e.lost);
      } else if LinkFailed(h) {
        assert e.monitor.value in After(SERVICE, h).cbs;
      }
    }
  }

  // The service

  class Binder {
    var mCbs: seq<Monitor>
    var mClientCount: int
    var links: set<Monitor>
    var gralloc: string
    var requests: seq<Request>

    constructor ()
      ensures Model() == EMPTY
    {
      mCbs, mClientCount, links, gralloc, requests := [], 0, {}, "", [];
    }

    function Model(): Registry
      reads this
    {
      Registry(mCbs, mClientCount, links, gralloc, requests)
    }

    /** Throws when linkToDeath does, with the monitor already counted. */
    method RegisterMonitor(monitor: Option<Monitor>, linkWorks: bool) returns (thrown: bool)
      modifies this
      ensures Model() == Step(old(Model()), Register(monitor, linkWorks))
      ensures thrown <==> monitor.Some? && monitor.value !in old(mCbs) && !linkWorks
    {
      if monitor.None? {
        return false;
      }
      if monitor.value in mCbs {
        return false;
      }
      mClientCount := mClientCount + 1;
      mCbs := mCbs + [monitor.value];
      if !linkWorks {
        return true;
      }
      links := links + {monitor.value};
      thrown := false;
    }

    method BinderDied(monitor: Monitor, written: bool)
      requires monitor in links
      modifies this
      ensures Model() == Step(old(Model()), Died(monitor, written))
    {
      links := links - {monitor};
      mCbs := Remove(mCbs, monitor);
      mClientCount := mClientCount - 1;
      if 0 == mClientCount {
        SetBoth("0", written);
      }
    }

    method ActivityEnter(written: bool) returns (ret: int)
      modifies this
      ensures ret == 0 && Model() == Step(old(Model()), Enter(written))
    {
      SetBoth("1", written);
      ret := 0;
    }

    method ActivityLeave(written: bool) returns (ret: int)
      modifies this
      ensures ret == 0 && Model() == Step(old(Model()), Leave(written))
    {
      SetBoth("0", written);
      ret := 0;
    }

    method SetBoth(value: string, written: bool)
      modifies this
      ensures Model() == Put(old(Model()), value, written)
    {
      requests := requests + [SetGralloc(value)];
      if written {
        gralloc := value;
      }
      requests := requests + [SetAutorefresh(value)];
      assert requests == old(requests) + Both(value);
    }
  }
}
