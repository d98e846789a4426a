/**
 Bounded worker pools on a single thread: every scheduler step runs one worker
 from one await to its next. The choice of the worker is arbitrary, so what is
 proved holds under every interleaving.
 */
module WorkerPool {
  import opened Wrappers

  datatype Limit = Finite(value: real) | NotFinite

  datatype Worker = Ready | Running(index: nat) | Stopped

  datatype Result<+R> = Resolved(values: seq<R>) | Rejected(index: nat) | LimitRefused

  /** As many as neither limit nor n forbids. */
  ghost predicate IsPoolSize(limit: real, n: nat, size: nat) {
    size as real <= limit && size <= n && ((size + 1) as real > limit || size == n)
  }

  /** min(limit, n), truncated the way Array.from truncates a length. */
  function PoolSize(limit: real, n: nat): (size: nat)
    requires limit >= 1.0
    ensures IsPoolSize(limit, n, size) && (n > 0 ==> size > 0)
  {
    var length := if limit < n as real then limit else n as real;
    length.Floor
  }

  function InFlight(workers: seq<Worker>): nat {
    if workers == [] then 0
    else InFlight(workers[1..]) + (if workers[0].Running? then 1 else 0)
  }

  function Alive(workers: seq<Worker>): nat {
    if workers == [] then 0
    else Alive(workers[1..]) + (if workers[0].Stopped? then 0 else 1)
  }

  lemma {:induction false} CountsAfterUpdate(workers: seq<Worker>, w: nat, now: Worker)
    requires w < |workers|
    ensures InFlight(workers[w := now]) ==
              InFlight(workers) - (if workers[w].Running? then 1 else 0) + (if now.Running? then 1 else 0)
    ensures Alive(workers[w := now]) ==
              Alive(workers) - (if workers[w].Stopped? then 0 else 1) + (if now.Stopped? then 0 else 1)
  {
    if w == 0 {
      assert workers[w := now][1..] == workers[1..];
    } else {
      assert workers[w := now][1..] == workers[1..][w - 1 := now];
      CountsAfterUpdate(workers[1..], w - 1, now);
    }
  }

  lemma {:induction false} InFlightAtMostAll(workers: seq<Worker>)
    ensures InFlight(workers) <= Alive(workers) <= |workers|
  {
    if workers != [] {
      InFlightAtMostAll(workers[1..]);
    }
  }

  lemma {:induction false} NoneAlive(workers: seq<Worker>)
    ensures Alive(workers) == 0 <==> forall w | 0 <= w < |workers| :: workers[w].Stopped?
    ensures (forall w | 0 <= w < |workers| ::
              workers[w] == Ready) ==> Alive(workers) == |workers| && InFlight(workers) == 0
  {
    if workers != [] {
      NoneAlive(workers[1..]);
      assert forall w | 0 <= w < |workers| - 1 :: workers[1..][w] == workers[w + 1];
      assert forall w | 1 <= w < |workers| :: workers[w] == workers[1..][w - 1];
    }
  }

  function Upto(n: nat): (s: seq<nat>)
    ensures |s| == n && forall i | 0 <= i < n :: s[i] == i
  {
    seq(n, i => i)
  }

  function Min(a: nat, b: nat): nat {
    if a <= b then a else b
  }

  /** The claims that are being worked on: no index is held twice, and each lies below the counter. */
  ghost predicate AreClaims(workers: seq<Worker>, next: nat, n: nat) {
    && (forall w | 0 <= w < |workers| && workers[w].Running? :: workers[w].index < next && workers[w].index < n)
    && (forall v, w | 0 <= v < w < |workers| && workers[v].Running? && workers[w].Running? ::
          workers[v].index != workers[w].index)
  }

  /** Index i is being worked on. */
  ghost predicate IsHeld(workers: seq<Worker>, i: nat) {
    exists w | 0 <= w < |workers| :: workers[w] == Running(i)
  }

  function FreshWorkers(size: nat): (workers: seq<Worker>)
    ensures |workers| == size && forall w | 0 <= w < size :: workers[w] == Ready
  {
    seq(size, _ => Ready)
  }

  lemma FreshPool(size: nat, n: nat)
    ensures AreClaims(FreshWorkers(size), 0, n) && InFlight(FreshWorkers(size)) == 0
    ensures forall i :: !IsHeld(FreshWorkers(size), i)
  {
    NoneAlive(FreshWorkers(size));
  }

  lemma ClaimStep(workers: seq<Worker>, w: nat, next: nat, n: nat)
    requires AreClaims(workers, next, n) && w < |workers| && workers[w] == Ready && next < n
    ensures AreClaims(workers[w := Running(next)], next + 1, n)
    ensures IsHeld(workers[w := Running(next)], next)
    ensures forall i | IsHeld(workers, i) :: IsHeld(workers[w := Running(next)], i)
  {
    var after := workers[w := Running(next)];
    assert after[w] == Running(next);
    forall i | IsHeld(workers, i)
      ensures IsHeld(after, i)
    {
      var v :| 0 <= v < |workers| && workers[v] == Running(i);
      assert after[v] == Running(i);
    }
  }

  /** A worker gives up its claim: it finished its item, or it finds nothing left and stops. */
  lemma ReleaseStep(workers: seq<Worker>, w: nat, now: Worker, next: nat, n: nat)
    requires AreClaims(workers, next, n) && w < |workers| && !now.Running?
    ensures AreClaims(workers[w := now], next, n) && AreClaims(workers[w := now], next + 1, n)
    ensures forall i | IsHeld(workers, i) && workers[w] != Running(i) :: IsHeld(workers[w := now], i)
  {
    var after := workers[w := now];
    forall i | IsHeld(workers, i) && workers[w] != Running(i)
      ensures IsHeld(after, i)
    {
      var v :| 0 <= v < |workers| && workers[v] == Running(i);
      assert after[v] == Running(i);
    }
  }

  /** A running index is below the counter, and with no worker alive nothing is held. */
  lemma HeldFacts(workers: seq<Worker>, next: nat, n: nat)
    requires AreClaims(workers, next, n)
    ensures forall w | 0 <= w < |workers| && workers[w].Running? :: workers[w].index < Min(next, n)
    ensures forall w | 0 <= w < |workers| && workers[w].Running? :: IsHeld(workers, workers[w].index)
    ensures (forall w | 0 <= w < |workers| :: workers[w].Stopped?) ==> forall i :: !IsHeld(workers, i)
  {
  }

  /** What stays to be done: an item costs a claim and a finish, a worker its last look at the counter. */
  function Work(workers: seq<Worker>, next: nat, n: nat): nat {
    2 * (n - Min(next, n)) + InFlight(workers) + Alive(workers)
  }

  /**
   fn(item, index) is None when the promise rejects. calls lists the invocations of fn in order, peak is the
   largest number of them in flight at once, started the number of workers.
   */
  method MapWithConcurrency<T, R(0)>(items: seq<T>, limit: Limit, fn: (T, nat) -> Option<R>)
    returns (result: Result<R>, ghost calls: seq<nat>, ghost peak: nat, ghost started: nat)
    ensures result.LimitRefused? <==> limit.NotFinite? || limit.value < 1.0
    ensures !result.LimitRefused? ==>
              (result.Resolved? <==> forall i | 0 <= i < |items| :: fn(items[i], i).Some?)
    ensures result.Resolved? ==>
              && |result.values| == |items| && calls == Upto(|items|)
              && forall i | 0 <= i < |items| :: fn(items[i], i) == Some(result.values[i])
    ensures result.Rejected? ==> result.index < |items| && fn(items[result.index], result.index).None?
    ensures result.Rejected? ==> result.index < |calls| <= |items| && calls == Upto(|calls|)
    ensures limit.Finite? ==> peak as real <= if limit.value < 0.0 then 0.0 else limit.value
    ensures peak <= started <= |items|
    ensures !result.LimitRefused? ==> IsPoolSize(limit.value, |items|, started)
  {
    hide AreClaims, IsHeld, InFlight, Alive;
    calls, peak, started := [], 0, 0;
    if limit.NotFinite? || limit.value < 1.0 {
      return LimitRefused, [], 0, 0;
    }
    var n := |items|;
    var out := new R[n];
    var next := 0;
    var size := PoolSize(limit.value, n);
    started := size;
    var workers: seq<Worker> := FreshWorkers(size);
    FreshPool(size, n);
    while exists w :: 0 <= w < |workers| && !workers[w].Stopped?
      invariant |workers| == size
      invariant AreClaims(workers, next, n)
      invariant calls == Upto(Min(next, n))
      invariant InFlight(workers) <= peak <= |workers|
      invariant forall i | 0 <= i < next && i < n && !IsHeld(workers, i) :: fn(items[i], i) == Some(out[i])
      invariant next < n ==> forall w | 0 <= w < |workers| :: !workers[w].Stopped?
      decreases Work(workers, next, n)
    {
      var w :| 0 <= w < |workers| && !workers[w].Stopped?;
      InFlightAtMostAll(workers);
      HeldFacts(workers, next, n);
      match workers[w] {
        case Ready =>
          var i := next;
          next := next + 1;
          if i >= n {
            CountsAfterUpdate(workers, w, Stopped);
            ReleaseStep(workers, w, Stopped, i, n);
            workers := workers[w := Stopped];
          } else {
            CountsAfterUpdate(workers, w, Running(i));
            ClaimStep(workers, w, i, n);
            workers := workers[w := Running(i)];
            calls := calls + [i];
          }
        case Running(i) =>
          var r := fn(items[i], i);
          if r.None? {
            return Rejected(i), calls, peak, started;
          }
          out[i] := r.value;
          CountsAfterUpdate(workers, w, Ready);
          ReleaseStep(workers, w, Ready, next, n);
          workers := workers[w := Ready];
      }
      InFlightAtMostAll(workers);
      if InFlight(workers) > peak {
        peak := InFlight(workers);
      }
    }
    HeldFacts(workers, next, n);
    assert size > 0 ==> workers[0].Stopped?;
    result := Resolved(out[..]);
  }

  /**
   The pool of the parity script: the test of the cursor and its increment are one step, so the cursor never
   passes the end. A check that throws ends the run (None). With no worker at all nothing would be checked.
   */
  method CheckAllPeriods(n: nat, concurrency: nat, check: nat -> bool)
    returns (cursor: Option<nat>, ghost checked: seq<nat>)
    ensures cursor.Some? ==> (forall i | 0 <= i < |checked| :: check(i)) && checked == Upto(|checked|)
    ensures cursor.Some? ==> |checked| == (if concurrency == 0 then 0 else n) && cursor.value == |checked|
    ensures cursor.None? ==> exists i | 0 <= i < n :: !check(i)
  {
    hide AreClaims, IsHeld, InFlight, Alive;
    checked := [];
    var at := 0;
    var workers: seq<Worker> := FreshWorkers(concurrency);
    FreshPool(concurrency, n);
    while exists w :: 0 <= w < |workers| && !workers[w].Stopped?
      invariant |workers| == concurrency && at <= n
      invariant AreClaims(workers, at, n)
      invariant checked == Upto(at)
      invariant forall i | 0 <= i < at && !IsHeld(workers, i) :: check(i)
      invariant concurrency == 0 ==> at == 0
      invariant at < n ==> forall w | 0 <= w < |workers| :: !workers[w].Stopped?
      decreases Work(workers, at, n)
    {
      var w :| 0 <= w < |workers| && !workers[w].Stopped?;
      InFlightAtMostAll(workers);
      HeldFacts(workers, at, n);
      match workers[w] {
        case Ready =>
          if at < n {
            CountsAfterUpdate(workers, w, Running(at));
            ClaimStep(workers, w, at, n);
            workers := workers[w := Running(at)];
            checked := checked + [at];
            at := at + 1;
          } else {
            CountsAfterUpdate(workers, w, Stopped);
            ReleaseStep(workers, w, Stopped, at, n);
            workers := workers[w := Stopped];
          }
        case Running(i) =>
          if !check(i) {
            return None, checked;
          }
          CountsAfterUpdate(workers, w, Ready);
          ReleaseStep(workers, w, Ready, at, n);
          workers := workers[w := Ready];
      }
    }
    HeldFacts(workers, at, n);
    assert concurrency > 0 ==> workers[0].Stopped?;
    cursor := Some(at);
  }
}
