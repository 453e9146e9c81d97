/** The frame scheduler of src/shared/animations.js: one queue of running
    animations, advanced once per display frame, that goes idle when empty. */
module Animations {

  /** An animation as the scheduler sees it: an identity, the instance
      (`root`) that owns it and the keypath it animates. */
  datatype Animation = Animation(id: nat, root: nat, keypath: string)

  /** One call `animation.tick(now)` made by a pass of the scheduler. */
  datatype TickCall = TickCall(animation: Animation, now: int)

  /** The animation's own `tick(now)`: true while it wants more frames. */
  type TickOracle = (Animation, int) -> bool

  /** The entries a pass keeps: those whose tick answered true, in order. */
  function Survivors(q: seq<Animation>, continues: TickOracle, now: int): seq<Animation>
  {
    if q == [] then []
    else
      var last := q[|q| - 1];
      Survivors(q[..|q| - 1], continues, now) + (if continues(last, now) then [last] else [])
  }

  /** The calls a pass makes: one per entry, in index order, all with `now`. */
  function Calls(q: seq<Animation>, now: int): (c: seq<TickCall>)
    ensures |c| == |q|
    ensures forall k :: 0 <= k < |q| ==> c[k] == TickCall(q[k], now)
  {
    seq(|q|, k requires 0 <= k < |q| => TickCall(q[k], now))
  }

  predicate Matches(a: Animation, keypath: string, root: nat)
  {
    a.root == root && a.keypath == keypath
  }

  /** The matching entries, in index order. */
  function Matching(q: seq<Animation>, keypath: string, root: nat): seq<Animation>
  {
    if q == [] then []
    else (if Matches(q[0], keypath, root) then [q[0]] else []) + Matching(q[1..], keypath, root)
  }

  /** The `stop` calls of `abort`: matching entries visited from the last
      index to the first. */
  function StopOrder(q: seq<Animation>, keypath: string, root: nat): seq<Animation>
  {
    if q == [] then []
    else StopOrder(q[1..], keypath, root) + (if Matches(q[0], keypath, root) then [q[0]] else [])
  }

  function Reverse<T>(s: seq<T>): seq<T>
  {
    if s == [] then [] else Reverse(s[1..]) + [s[0]]
  }

  /** No two entries share an identity. */
  predicate Distinct(q: seq<Animation>)
  {
    forall i, j :: 0 <= i < j < |q| ==> q[i].id != q[j].id
  }

  /** An animation is kept by a pass exactly when it was queued and its tick
      answered true. */
  lemma {:induction false} SurvivorsMembership(q: seq<Animation>, continues: TickOracle, now: int, a: Animation)
    ensures a in Survivors(q, continues, now) <==> a in q && continues(a, now)
  {
    if q != [] {
      SurvivorsMembership(q[..|q| - 1], continues, now, a);
      assert q == q[..|q| - 1] + [q[|q| - 1]];
    }
  }

  /** Every kept entry sits at some index of the old queue, and the indices
      of kept entries increase: the relative order is the original one. */
  function SourceIndex(q: seq<Animation>, continues: TickOracle, now: int, k: nat): (p: nat)
    requires k < |Survivors(q, continues, now)|
    ensures p < |q| && q[p] == Survivors(q, continues, now)[k] && continues(q[p], now)
  {
    var init := Survivors(q[..|q| - 1], continues, now);
    if k < |init| then
      var p := SourceIndex(q[..|q| - 1], continues, now, k);
      assert Survivors(q, continues, now)[k] == init[k];
      p
    else
      |q| - 1
  }

  lemma {:induction false} SourceIndexIncreasing(q: seq<Animation>, continues: TickOracle, now: int, k: nat, l: nat)
    requires k < l < |Survivors(q, continues, now)|
    ensures SourceIndex(q, continues, now, k) < SourceIndex(q, continues, now, l)
  {
    var init := Survivors(q[..|q| - 1], continues, now);
    if l < |init| {
      SourceIndexIncreasing(q[..|q| - 1], continues, now, k, l);
    }
  }

  /** Each old entry whose tick answered true is kept. */
  lemma {:induction false} SurvivorsComplete(q: seq<Animation>, continues: TickOracle, now: int, p: nat)
    requires p < |q| && continues(q[p], now)
    ensures q[p] in Survivors(q, continues, now)
  {
    SurvivorsMembership(q, continues, now, q[p]);
  }

  /** A pass leaves the queue empty exactly when every tick answered false. */
  lemma {:induction false} SurvivorsEmpty(q: seq<Animation>, continues: TickOracle, now: int)
    ensures Survivors(q, continues, now) == [] <==> forall k :: 0 <= k < |q| ==> !continues(q[k], now)
  {
    if q != [] {
      SurvivorsEmpty(q[..|q| - 1], continues, now);
    }
  }

  /** A pass never introduces two entries with one identity. */
  lemma {:induction false} SurvivorsDistinct(q: seq<Animation>, continues: TickOracle, now: int)
    requires Distinct(q)
    ensures Distinct(Survivors(q, continues, now))
  {
    var s := Survivors(q, continues, now);
    forall i, j | 0 <= i < j < |s|
      ensures s[i].id != s[j].id
    {
      SourceIndexIncreasing(q, continues, now, i, j);
    }
  }

  /** `abort` stops all and only the matching entries. */
  lemma {:induction false} StopOrderMembership(q: seq<Animation>, keypath: string, root: nat, a: Animation)
    ensures a in StopOrder(q, keypath, root) <==> a in q && Matches(a, keypath, root)
  {
    if q != [] {
      StopOrderMembership(q[1..], keypath, root, a);
      assert q == [q[0]] + q[1..];
    }
  }

  lemma {:induction false} ReverseAppend<T>(s: seq<T>, t: seq<T>)
    ensures Reverse(s + t) == Reverse(t) + Reverse(s)
  {
    if s == [] {
      assert s + t == t;
    } else {
      assert (s + t)[1..] == s[1..] + t;
      ReverseAppend(s[1..], t);
    }
  }

  /** `abort` visits the matching entries in exactly the reverse of index order. */
  lemma {:induction false} StopOrderIsReversedMatching(q: seq<Animation>, keypath: string, root: nat)
    ensures StopOrder(q, keypath, root) == Reverse(Matching(q, keypath, root))
  {
    if q != [] {
      var head := if Matches(q[0], keypath, root) then [q[0]] else [];
      StopOrderIsReversedMatching(q[1..], keypath, root);
      ReverseAppend(head, Matching(q[1..], keypath, root));
      assert Reverse(head) == head;
    }
  }

  /** The `animations` object. `framesRequested` counts the calls to
      requestAnimationFrame; `framesServed` counts the frame callbacks that
      were delivered; `ticks` and `stops` record the calls made into the
      animations. */
  class Scheduler {
    var queue: seq<Animation>
    var running: bool
    var framesRequested: nat
    var framesServed: nat
    var ticks: seq<TickCall>
    var stops: seq<Animation>

    /** At rest the scheduler runs exactly when its queue is non-empty, and
        exactly one frame callback is pending while it runs (none when idle). */
    ghost predicate Valid()
      reads this
    {
      framesServed <= framesRequested &&
      (running <==> queue != []) &&
      framesRequested - framesServed == (if running then 1 else 0)
    }

    constructor ()
      ensures Valid()
      ensures queue == [] && !running && ticks == [] && stops == []
      ensures framesRequested == 0 && framesServed == 0
    {
      queue, running := [], false;
      framesRequested, framesServed := 0, 0;
      ticks, stops := [], [];
    }

    /** `animations.tick`: one pass over the queue with one shared `now`;
        finished entries are cut out in place and the cursor steps back so
        the next entry is not skipped. */
    method Tick(now: int, continues: TickOracle)
      modifies this
      ensures queue == Survivors(old(queue), continues, now)
      ensures ticks == old(ticks) + Calls(old(queue), now)
      ensures queue != [] ==> running == old(running) && framesRequested == old(framesRequested) + 1
      ensures queue == [] ==> !running && framesRequested == old(framesRequested)
      ensures framesServed == old(framesServed) && stops == old(stops)
      ensures Distinct(old(queue)) ==> Distinct(queue)
    {
      ghost var q0 := queue;
      ghost var k := 0;
      var i: int := 0;
      while i < |queue|
        invariant 0 <= i <= |queue| && 0 <= k <= |q0|
        invariant queue[..i] == Survivors(q0[..k], continues, now)
        invariant queue[i..] == q0[k..] && |queue| - i == |q0| - k
        invariant ticks == old(ticks) + Calls(q0[..k], now)
        invariant running == old(running) && framesRequested == old(framesRequested)
        invariant framesServed == old(framesServed) && stops == old(stops)
        decreases |q0| - k
      {
        var animation := queue[i];
        assert animation == queue[i..][0] == q0[k..][0] == q0[k];
        assert q0[..k + 1][..k] == q0[..k];
        ticks := ticks + [TickCall(animation, now)];
        assert Calls(q0[..k + 1], now) == Calls(q0[..k], now) + [TickCall(animation, now)];
        if !continues(animation, now) {
          queue := queue[..i] + queue[i + 1..];
          i := i - 1;
        }
        i := i + 1;
        k := k + 1;
      }
      assert q0[..k] == q0;
      if Distinct(q0) {
        SurvivorsDistinct(q0, continues, now);
      }
      if |queue| != 0 {
        framesRequested := framesRequested + 1;
      } else {
        running := false;
      }
    }

    /** `animations.add`: append, and start the driver with a synchronous
        pass when it is idle. */
    method Add(animation: Animation, now: int, continues: TickOracle)
      requires Valid()
      modifies this
      ensures Valid()
      ensures old(running) ==> queue == old(queue) + [animation] && running
      ensures old(running) ==> ticks == old(ticks) && framesRequested == old(framesRequested)
      ensures !old(running) ==> queue == Survivors([animation], continues, now)
      ensures !old(running) ==> ticks == old(ticks) + [TickCall(animation, now)]
      ensures !old(running) ==> running == continues(animation, now)
      ensures framesServed == old(framesServed) && stops == old(stops)
    {
      queue := queue + [animation];
      if !running {
        running := true;
        Tick(now, continues);
        SurvivorsMembership([animation], continues, now, animation);
      }
    }

    /** The frame callback requested by a pass: the next display frame runs
        one more pass. */
    method OnFrame(now: int, continues: TickOracle)
      requires Valid() && framesServed < framesRequested
      modifies this
      ensures Valid()
      ensures framesServed == old(framesServed) + 1
      ensures queue == Survivors(old(queue), continues, now)
      ensures ticks == old(ticks) + Calls(old(queue), now)
      ensures running <==> queue != []
      ensures stops == old(stops)
      ensures Distinct(old(queue)) ==> Distinct(queue)
    {
      framesServed := framesServed + 1;
      Tick(now, continues);
    }

    /** `animations.abort`: a reverse scan that calls `stop` on every entry
        whose root and keypath both match; the queue itself is untouched. */
    method Abort(keypath: string, root: nat)
      modifies this`stops
      ensures stops == old(stops) + StopOrder(queue, keypath, root)
    {
      var i := |queue|;
      while i != 0
        invariant 0 <= i <= |queue|
        invariant stops == old(stops) + StopOrder(queue[i..], keypath, root)
      {
        i := i - 1;
        var animation := queue[i];
        assert queue[i..][1..] == queue[i + 1..];
        if Matches(animation, keypath, root) {
          stops := stops + [animation];
        }
      }
    }
  }

  lemma SurvivorsSingleton(a: Animation, continues: TickOracle, now: int)
    ensures Survivors([a], continues, now) == if continues(a, now) then [a] else []
  {
  }

  /** The oracle of an animation that wants frames strictly before `deadline`. */
  function Until(deadline: int): TickOracle
  {
    (x: Animation, now: int) => now < deadline
  }

  /** One delivered frame while the only queued entry is `a`. */
  method FrameWithOne(s: Scheduler, a: Animation, deadline: int, now: int)
    requires s.Valid() && s.queue == [a]
    modifies s
    ensures s.Valid() && s.framesServed == old(s.framesServed) + 1
    ensures s.ticks == old(s.ticks) + [TickCall(a, now)]
    ensures s.queue == (if now < deadline then [a] else []) && s.running == (now < deadline)
  {
    SurvivorsSingleton(a, Until(deadline), now);
    assert Calls([a], now) == [TickCall(a, now)];
    s.OnFrame(now, Until(deadline));
  }

  /** A single animation whose tick answers true on its first n - 1 frames
      and false on the n-th: added to an idle scheduler and driven frame by
      frame, it is ticked exactly n times, once per frame in time order, and
      the scheduler ends idle with the queue empty and no frame pending. */
  method AnimationLifecycle(a: Animation, n: nat, start: int) returns (s: Scheduler)
    requires n >= 1
    ensures s.Valid() && s.queue == [] && !s.running
    ensures s.framesRequested == s.framesServed == n - 1
    ensures |s.ticks| == n && forall k :: 0 <= k < n ==> s.ticks[k] == TickCall(a, start + k)
  {
    var deadline := start + n - 1;
    s := new Scheduler();
    SurvivorsSingleton(a, Until(deadline), start);
    s.Add(a, start, Until(deadline));
    var k := 1;
    while s.running
      invariant s.Valid()
      invariant 1 <= k <= n && s.framesServed == k - 1
      invariant |s.ticks| == k && forall j :: 0 <= j < k ==> s.ticks[j] == TickCall(a, start + j)
      invariant s.running ==> s.queue == [a] && k < n
      invariant !s.running ==> k == n && s.queue == []
      decreases n - k
    {
      FrameWithOne(s, a, deadline, start + k);
      k := k + 1;
    }
  }
}
