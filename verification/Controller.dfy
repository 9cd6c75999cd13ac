/** The controller's package lists, as its methods change them under the lock
    (internal/controller/controller.go). */
module Controller {
  import opened Text

  type PackageId = nat
  type DecisionId = nat

  const MAX_CONCURRENT_PACKAGES := 2

  /** The hand-kept lists and the two gauges, the queue length summed over package types. */
  datatype Lists = Lists(
    active: seq<PackageId>, queued: seq<PackageId>, awaiting: map<PackageId, seq<DecisionId>>,
    activeGauge: int, queueGauge: int)

  const EMPTY := Lists([], [], map[], 0, 0)

  lemma {:induction false} RemoveFirstCounts(s: seq<nat>, x: nat)
    requires x in s
    ensures multiset(RemoveFirst(s, x)) == multiset(s) - multiset{x}
    ensures |RemoveFirst(s, x)| == |s| - 1
  {
    var k := FirstIndex(s, x);
    assert s == s[..k] + [x] + s[k + 1..];
  }

  // ---------------------------------------------------------------- what each critical section computes

  function Queue(l: Lists, pkg: PackageId): Lists {
    l.(queued := l.queued + [pkg], queueGauge := l.queueGauge + 1)
  }

  predicate Idle(l: Lists) {
    |l.active| == MAX_CONCURRENT_PACKAGES || l.queued == []
  }

  function Pick(l: Lists): Lists {
    if Idle(l) then l
    else l.(active := l.active + [l.queued[0]], queued := l.queued[1..], activeGauge := l.activeGauge + 1)
  }

  function Deactivate(l: Lists, pkg: PackageId): Lists {
    if pkg in l.active then
      l.(active := RemoveFirst(l.active, pkg), activeGauge := l.activeGauge - 1, queueGauge := l.queueGauge - 1)
    else l
  }

  function Pending(l: Lists, pkg: PackageId): seq<DecisionId> {
    if pkg in l.awaiting then l.awaiting[pkg] else []
  }

  function QueueToAwait(l: Lists, pkg: PackageId, dec: DecisionId): Lists {
    if pkg in l.active then
      l.(active := RemoveFirst(l.active, pkg), awaiting := l.awaiting[pkg := Pending(l, pkg) + [dec]])
    else l
  }

  function DequeueFromAwait(l: Lists, pkg: PackageId, dec: DecisionId): Lists {
    if dec in Pending(l, pkg) then
      var rest := RemoveFirst(l.awaiting[pkg], dec);
      l.(active := l.active + [pkg], awaiting := if rest == [] then l.awaiting - {pkg} else l.awaiting[pkg := rest])
    else l
  }

  // ---------------------------------------------------------------- the controller object

  class PackageController {
    var activePackages: seq<PackageId>
    var queuedPackages: seq<PackageId>
    var awaitingPackages: map<PackageId, seq<DecisionId>>
    var activeGauge: int
    var queueGauge: int

    function View(): Lists
      reads this
    {
      Lists(activePackages, queuedPackages, awaitingPackages, activeGauge, queueGauge)
    }

    constructor ()
      ensures View() == EMPTY
    {
      activePackages, queuedPackages, awaitingPackages := [], [], map[];
      activeGauge, queueGauge := 0, 0;
    }

    method Enqueue(pkg: PackageId)
      modifies this
      ensures View() == Queue(old(View()), pkg)
    {
      queuedPackages := queuedPackages + [pkg];
      queueGauge := queueGauge + 1;
    }

    /** The package to start a goroutine for, if any. */
    method PickNext() returns (started: bool, pkg: PackageId)
      modifies this
      ensures View() == Pick(old(View()))
      ensures started <==> !Idle(old(View()))
      ensures started ==> pkg == old(queuedPackages)[0]
    {
      started, pkg := false, 0;
      if |activePackages| == MAX_CONCURRENT_PACKAGES {
        return;
      }
      if |queuedPackages| > 0 {
        started, pkg := true, queuedPackages[0];
        activePackages := activePackages + [pkg];
        queuedPackages := queuedPackages[1..];
        activeGauge := activeGauge + 1;
      }
    }

    method DeactivatePackage(pkg: PackageId)
      modifies this
      ensures View() == Deactivate(old(View()), pkg)
      ensures pkg !in old(activePackages) ==> View() == old(View())
    {
      var k := IndexOf(activePackages, pkg);
      if k < |activePackages| {
        activePackages := activePackages[..k] + activePackages[k + 1..];
        activeGauge := activeGauge - 1;
        queueGauge := queueGauge - 1;
      }
    }

    /** ok is false where the source returns an error. */
    method MoveToAwait(pkg: PackageId, dec: DecisionId) returns (ok: bool)
      modifies this
      ensures View() == QueueToAwait(old(View()), pkg, dec)
      ensures ok <==> pkg in old(activePackages)
      ensures !ok ==> View() == old(View())
    {
      var k := IndexOf(activePackages, pkg);
      if k == |activePackages| {
        return false;
      }
      activePackages := activePackages[..k] + activePackages[k + 1..];
      if pkg !in awaitingPackages {
        awaitingPackages := awaitingPackages[pkg := [dec]];
        assert [] + [dec] == [dec];
      } else {
        awaitingPackages := awaitingPackages[pkg := awaitingPackages[pkg] + [dec]];
      }
      ok := true;
    }

    method MoveFromAwait(pkg: PackageId, dec: DecisionId)
      modifies this
      ensures View() == DequeueFromAwait(old(View()), pkg, dec)
      ensures pkg !in old(awaitingPackages) || dec !in old(awaitingPackages)[pkg] ==> View() == old(View())
    {
      if pkg !in awaitingPackages {
        return;
      }
      var decisions := awaitingPackages[pkg];
      var k := IndexOf(decisions, dec);
      if k == |decisions| {
        return;
      }
      decisions := decisions[..k] + decisions[k + 1..];
      if |decisions| == 0 {
        awaitingPackages := awaitingPackages - {pkg};
      } else {
        awaitingPackages := awaitingPackages[pkg := decisions];
      }
      activePackages := activePackages + [pkg];
    }
  }
}
