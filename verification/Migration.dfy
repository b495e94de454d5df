/** thread_consider_migration (thread/thread.c) with nothing else running: how many
    threads go where.

    `Threads` has the same code one lock region at a time, among everything else; here
    the loops run undisturbed and the counts come out exactly.
  */
module Migration {
  type Tid = nat

  /** All threads queued on the CPUs from i on, and their number. */
  ghost function Threads(q: seq<seq<Tid>>, i: nat): multiset<Tid>
    requires i <= |q|
    decreases |q| - i
  {
    if i == |q| then multiset{} else multiset(q[i]) + Threads(q, i + 1)
  }

  ghost function Total(q: seq<seq<Tid>>, i: nat): nat
    requires i <= |q|
    decreases |q| - i
  {
    if i == |q| then 0 else |q[i]| + Total(q, i + 1)
  }

  /** How far the queues from i on, other than `me`, are below the share. */
  ghost function Room(q: seq<seq<Tid>>, me: nat, share: nat, i: nat): int
    requires i <= |q|
    decreases |q| - i
  {
    if i == |q| then 0 else (if i == me then 0 else share - |q[i]|) + Room(q, me, share, i + 1)
  }

  lemma {:induction false} RoomTotal(q: seq<seq<Tid>>, me: nat, share: nat, i: nat)
    requires i <= |q|
    ensures Room(q, me, share, i) == share * (|q| - i) - Total(q, i) - (if i <= me < |q| then share - |q[me]| else 0)
    decreases |q| - i
  {
    if i < |q| {
      RoomTotal(q, me, share, i + 1);
      assert share * (|q| - i) == share + share * (|q| - (i + 1));
    }
  }

  lemma {:induction false} SameFrom(q: seq<seq<Tid>>, q': seq<seq<Tid>>, me: nat, share: nat, i: nat)
    requires i <= |q| == |q'| && q[i..] == q'[i..]
    ensures Threads(q', i) == Threads(q, i) && Total(q', i) == Total(q, i)
    ensures Room(q', me, share, i) == Room(q, me, share, i)
    decreases |q| - i
  {
    if i < |q| {
      assert q'[i] == q'[i..][0] == q[i..][0] == q[i];
      assert q[i + 1..] == q[i..][1..] && q'[i + 1..] == q'[i..][1..];
      SameFrom(q, q', me, share, i + 1);
    }
  }

  /** Changing one queue changes the threads by as much. */
  lemma {:induction false} ThreadsChange(q: seq<seq<Tid>>, k: nat, s: seq<Tid>, i: nat)
    requires i <= k < |q|
    ensures Threads(q[k := s], i) + multiset(q[k]) == Threads(q, i) + multiset(s)
    decreases k - i
  {
    if i == k {
      SameFrom(q, q[k := s], 0, 0, k + 1);
    } else {
      ThreadsChange(q, k, s, i + 1);
      AddBoth(multiset(q[i]), Threads(q[k := s], i + 1), multiset(q[k]), Threads(q, i + 1), multiset(s));
    }
  }

  lemma AddBoth(x: multiset<Tid>, a: multiset<Tid>, b: multiset<Tid>, c: multiset<Tid>, d: multiset<Tid>)
    requires a + b == c + d
    ensures (x + a) + b == (x + c) + d
  {
    forall t ensures ((x + a) + b)[t] == ((x + c) + d)[t] {
      assert (a + b)[t] == (c + d)[t];
    }
  }

  /** The threads of v other than cur, in order, and the current thread as often as it is there. */
  ghost function Others(v: seq<Tid>, cur: Tid): seq<Tid> {
    if v == [] then [] else Others(v[..|v| - 1], cur) + if v[|v| - 1] == cur then [] else [v[|v| - 1]]
  }

  ghost function Current(v: seq<Tid>, cur: Tid): seq<Tid> {
    if v == [] then [] else Current(v[..|v| - 1], cur) + if v[|v| - 1] == cur then [cur] else []
  }

  lemma SplitOne(v: seq<Tid>, m: nat, cur: Tid)
    requires m < |v|
    ensures Others(v[..m + 1], cur) == Others(v[..m], cur) + if v[m] == cur then [] else [v[m]]
    ensures Current(v[..m + 1], cur) == Current(v[..m], cur) + if v[m] == cur then [cur] else []
  {
    assert v[..m + 1][..m] == v[..m];
  }

  lemma {:induction false} Split(v: seq<Tid>, m: nat, n: nat, cur: Tid)
    requires m <= n <= |v|
    ensures Others(v[..n], cur) == Others(v[..m], cur) + Others(v[m..n], cur)
    ensures Current(v[..n], cur) == Current(v[..m], cur) + Current(v[m..n], cur)
  {
    hide Others, Current;
    var w := v[m..n];
    assert w[..|w|] == w;
    if n == m {
      SplitNone(cur);
      assert w == [];
    } else {
      Split(v, m, n - 1, cur);
      SplitOne(v, n - 1, cur);
      SplitOne(w, |w| - 1, cur);
      assert w[..|w| - 1] == v[m..n - 1];
    }
  }

  lemma SplitNone(cur: Tid)
    ensures Others([], cur) == [] == Current([], cur)
  {
  }

  lemma {:induction false} SplitAll(v: seq<Tid>, cur: Tid)
    ensures multiset(Others(v, cur)) + multiset(Current(v, cur)) == multiset(v)
  {
    if v != [] {
      SplitAll(v[..|v| - 1], cur);
      assert v == v[..|v| - 1] + [v[|v| - 1]];
    }
  }

  lemma {:induction false} OthersFewer(v: seq<Tid>, cur: Tid)
    ensures |Others(v, cur)| <= |v|
  {
    if v != [] {
      OthersFewer(v[..|v| - 1], cur);
    }
  }

  /** What the CPUs before i other than `me` have got, one after the other. */
  ghost function Gifts(q: seq<seq<Tid>>, q': seq<seq<Tid>>, me: nat, i: nat): seq<Tid>
    requires i <= |q| == |q'|
  {
    if i == 0 then []
    else Gifts(q, q', me, i - 1) + if i - 1 == me || |q'[i - 1]| < |q[i - 1]| then [] else q'[i - 1][|q[i - 1]|..]
  }

  lemma {:induction false} SameGifts(p: seq<seq<Tid>>, p': seq<seq<Tid>>, q: seq<seq<Tid>>, q': seq<seq<Tid>>,
                                     me: nat, i: nat)
    requires i <= |p| == |p'| == |q| == |q'| && forall k | 0 <= k < i && k != me :: p'[k] == p[k] && q'[k] == q[k]
    ensures Gifts(p', q', me, i) == Gifts(p, q, me, i)
  {
    if i > 0 {
      SameGifts(p, p', q, q', me, i - 1);
    }
  }

  lemma {:induction false} NoMoreGifts(q: seq<seq<Tid>>, q': seq<seq<Tid>>, me: nat, i: nat, n: nat)
    requires i <= n <= |q| == |q'| && forall k | i <= k < n && k != me :: q'[k] == q[k]
    ensures Gifts(q, q', me, n) == Gifts(q, q', me, i)
  {
    if i < n {
      NoMoreGifts(q, q', me, i, n - 1);
      assert n - 1 != me ==> q'[n - 1][|q[n - 1]|..] == [];
    }
  }

  /** No CPU has got anything before the ones before it had their share. */
  ghost predicate InTurn(q: seq<seq<Tid>>, q': seq<seq<Tid>>, me: nat, share: nat, i: nat)
    requires i <= |q| == |q'|
  {
    forall j, k | 0 <= j < k < i && j != me && k != me && |q[k]| < |q'[k]| :: share <= |q'[j]|
  }

  /** DIVROUNDUP, and why it is enough room: n shares hold everything. */
  function Share(total: nat, n: nat): (s: nat)
    requires n > 0
    ensures s * n >= total && (s > 0 ==> (s - 1) * n < total)
  {
    var s := (total + n - 1) / n;
    assert s * n + (total + n - 1) % n == total + n - 1;
    assert (s - 1) * n == s * n - n;
    s
  }

  class RunQueues {
    var queues: seq<seq<Tid>>

    constructor (queues: seq<seq<Tid>>)
      ensures this.queues == queues
    {
      this.queues := queues;
    }

    /** The first loop. */
    method Count(me: nat) returns (my: nat, total: nat)
      requires me < |queues|
      ensures my == |queues[me]| && total == Total(queues, 0)
    {
      my, total := 0, 0;
      var i := 0;
      while i < |queues|
        invariant 0 <= i <= |queues| && total + Total(queues, i) == Total(queues, 0)
        invariant me < i ==> my == |queues[me]|
      {
        total := total + |queues[i]|;
        if i == me {
          my := |queues[i]|;
        }
        i := i + 1;
      }
    }

    /** The second loop: the last `send` threads of our queue, in order. */
    method TakeVictims(me: nat, send: nat) returns (victims: seq<Tid>)
      requires me < |queues| && send <= |queues[me]|
      modifies this`queues
      ensures |victims| == send && |queues| == |old(queues)| && queues == old(queues)[me := queues[me]]
      ensures old(queues)[me] == queues[me] + victims
    {
      victims := [];
      var i := 0;
      while i < send
        invariant 0 <= i <= send && |victims| == i
        invariant |queues| == |old(queues)| && queues == old(queues)[me := queues[me]]
        invariant old(queues)[me] == queues[me] + victims
      {
        var q := queues[me];
        assert |q| == |old(queues)[me]| - i;
        var t := q[|q| - 1];
        queues := queues[me := q[..|q| - 1]];
        assert q == q[..|q| - 1] + [t];
        victims := [t] + victims;
        i := i + 1;
      }
    }

    /** The inner loop for one other CPU: victims from the front until its queue has its
        share, passing over the current thread. */
    method GiveTo(c: nat, share: nat, cur: Tid, victims: seq<Tid>, send: nat) returns (left: seq<Tid>, send': nat)
      requires c < |queues| && send <= |victims|
      modifies this
      ensures |queues| == |old(queues)| && queues == old(queues)[c := queues[c]] && send' <= send
      ensures queues[c] == old(queues)[c] + Others(victims[..send - send'], cur)
      ensures left == victims[send - send'..] + Current(victims[..send - send'], cur)
      ensures multiset(queues[c]) + multiset(left) == multiset(old(queues)[c]) + multiset(victims)
      ensures (send' == 0 || |queues[c]| >= share) && (|queues[c]| == |old(queues)[c]| || |queues[c]| <= share)
    {
      hide Others, Current;
      left, send' := victims, send;
      NoneYet(queues, c, victims, cur);
      while |queues[c]| < share && send' > 0
        invariant send' <= send && |queues| == |old(queues)| && queues == old(queues)[c := queues[c]]
        invariant queues[c] == old(queues)[c] + Others(victims[..send - send'], cur)
        invariant left == victims[send - send'..] + Current(victims[..send - send'], cur)
        invariant |queues[c]| == |old(queues)[c]| || |queues[c]| <= share
        decreases send'
      {
        var t := left[0];
        assert left == [t] + left[1..];
        PassOne(victims, send - send', cur, left);
        if t == cur {
          left := left[1..] + [t];
        } else {
          queues := queues[c := queues[c] + [t]];
          left := left[1..];
        }
        send' := send' - 1;
      }
      SplitAll(victims[..send - send'], cur);
      assert victims == victims[..send - send'] + victims[send - send'..];
    }

    /** The loop over the other CPUs. If they have room, they get all the victims but the current
        thread, in order, each up to its share before the next one gets any. */
    method Distribute(me: nat, share: nat, cur: Tid, victims: seq<Tid>) returns (left: seq<Tid>)
      requires me < |queues|
      modifies this
      ensures |queues| == |old(queues)| && queues[me] == old(queues)[me]
      ensures Threads(queues, 0) + multiset(left) == Threads(old(queues), 0) + multiset(victims)
      ensures forall k | 0 <= k < |queues| && k != me :: GrewWithin(old(queues)[k], queues[k], share)
      ensures InTurn(old(queues), queues, me, share, |queues|)
      ensures |victims| <= Room(old(queues), me, share, 0) ==>
                left == Current(victims, cur) && Gifts(old(queues), queues, me, |queues|) == Others(victims, cur)
    {
      hide Threads, Dealt, GrewWithin, InTurn, Others, Current, Gifts, Room;
      ghost var q0, sum := queues, Threads(queues, 0) + multiset(victims);
      DealtNone(queues, me, share, cur, victims);
      var send := |victims|;
      left := victims;
      var i := 0;
      while i < |queues| && send > 0
        invariant 0 <= i <= |queues| == |q0| && queues[me] == q0[me]
        invariant Threads(queues, 0) + multiset(left) == sum
        invariant Dealt(q0, queues, me, share, cur, victims, left, send, i)
      {
        ghost var q1, v1, s1 := queues, left, send;
        DealtBound(q0, queues, me, share, cur, victims, left, send, i);
        if i != me {
          left, send := GiveTo(i, share, cur, left, send);
          ThreadsChange(q1, i, queues[i], 0);
          Balance(Threads(q1, 0), multiset(q1[i]), multiset(v1), Threads(queues, 0), multiset(queues[i]),
                  multiset(left), sum);
          DealtNext(q0, q1, queues, me, share, cur, victims, v1, s1, left, send, i);
        } else {
          DealtMe(q0, queues, me, share, cur, victims, left, send, i);
        }
        i := i + 1;
      }
      DealtAll(q0, queues, me, share, cur, victims, left, send, i);
    }

    /** Leftovers go back on our own queue. */
    method PutBack(me: nat, victims: seq<Tid>)
      requires me < |queues|
      modifies this
      ensures |queues| == |old(queues)| && queues == old(queues)[me := old(queues)[me] + victims]
    {
      var left := victims;
      while |left| > 0
        invariant |queues| == |old(queues)| && queues[me] + left == old(queues)[me] + victims
        invariant forall k | 0 <= k < |queues| && k != me :: queues[k] == old(queues)[k]
        decreases |left|
      {
        var t := left[0];
        assert queues[me] + left == queues[me] + [t] + left[1..];
        left := left[1..];
        queues := queues[me := queues[me] + [t]];
      }
      assert queues[me] == old(queues)[me] + victims;
    }

    /** thread_consider_migration on CPU `me`, whose current thread is `cur`. With less than its
        share nothing happens. Otherwise the CPU keeps its share from the front of the queue; the
        others get the rest in order, one after the other, each up to the share; and only the
        current thread, if it is among the rest, comes back to the end. No thread is lost or
        duplicated. */
    method Consider(me: nat, cur: Tid)
      requires me < |queues|
      modifies this
      ensures |queues| == |old(queues)| && Threads(queues, 0) == Threads(old(queues), 0)
      ensures forall i | 0 <= i < |queues| && i != me ::
                GrewWithin(old(queues)[i], queues[i], Share(Total(old(queues), 0), |queues|))
      ensures InTurn(old(queues), queues, me, Share(Total(old(queues), 0), |queues|), |queues|)
      ensures |old(queues)[me]| < Share(Total(old(queues), 0), |queues|) ==> queues == old(queues)
      ensures |old(queues)[me]| >= Share(Total(old(queues), 0), |queues|) ==>
                var share, mine := Share(Total(old(queues), 0), |queues|), old(queues)[me];
                && queues[me] == mine[..share] + Current(mine[share..], cur)
                && Gifts(old(queues), queues, me, |queues|) == Others(mine[share..], cur)
    {
      hide Threads, Room, Gifts, Others, Current;
      var my, total := Count(me);
      var share := Share(total, |queues|);
      if my < share {
        return;
      }
      ghost var q0 := queues;
      var victims := TakeVictims(me, my - share);
      ghost var q1 := queues;
      assert q1[me] == q0[me][..share] && victims == q0[me][share..];
      Enough(q0, q1, me, share, my - share);
      ThreadsChange(q0, me, q1[me], 0);
      assert multiset(q0[me]) == multiset(q1[me]) + multiset(victims);
      Balance(Threads(q0, 0), multiset(q0[me]), multiset{}, Threads(q1, 0), multiset(q1[me]), multiset(victims),
              Threads(q0, 0));
      victims := Distribute(me, share, cur, victims);
      ghost var q2 := queues;
      PutBack(me, victims);
      ThreadsChange(q2, me, queues[me], 0);
      Balance(Threads(q2, 0), multiset(q2[me]), multiset(victims), Threads(queues, 0), multiset(queues[me]), multiset{},
              Threads(q0, 0));
      SameGifts(q1, q0, q2, queues, me, |queues|);
    }
  }

  /** A queue that received threads did so at its end, up to the share. */
  ghost predicate GrewWithin(q: seq<Tid>, q': seq<Tid>, share: nat) {
    q <= q' && (|q'| == |q| || |q'| <= share)
  }

  /** The state of the loop over the CPUs: `send` victims have not been looked at. */
  ghost predicate Dealt(q: seq<seq<Tid>>, q': seq<seq<Tid>>, me: nat, share: nat, cur: Tid, v: seq<Tid>,
                        left: seq<Tid>, send: int, i: nat)
  {
    && i <= |q| == |q'| && 0 <= send <= |v| && left == v[|v| - send..] + Current(v[..|v| - send], cur)
    && Gifts(q, q', me, i) == Others(v[..|v| - send], cur) && InTurn(q, q', me, share, i)
    && (forall k | i <= k < |q| && k != me :: q'[k] == q[k])
    && (forall k | 0 <= k < i && k != me :: GrewWithin(q[k], q'[k], share) && (send > 0 ==> share <= |q'[k]|))
    && (|v| <= Room(q, me, share, 0) && send > 0 ==> send <= Room(q, me, share, i))
  }

  lemma DealtNone(q: seq<seq<Tid>>, me: nat, share: nat, cur: Tid, v: seq<Tid>)
    ensures Dealt(q, q, me, share, cur, v, v, |v|, 0)
  {
    NoneYet(q, me, v, cur);
  }

  lemma DealtBound(q: seq<seq<Tid>>, q': seq<seq<Tid>>, me: nat, share: nat, cur: Tid, v: seq<Tid>,
                   left: seq<Tid>, send: int, i: nat)
    requires Dealt(q, q', me, share, cur, v, left, send, i)
    ensures 0 <= send <= |left| && |q'| == |q| && (i < |q| && i != me ==> q'[i] == q[i])
  {
  }

  lemma DealtMe(q: seq<seq<Tid>>, q': seq<seq<Tid>>, me: nat, share: nat, cur: Tid, v: seq<Tid>,
                left: seq<Tid>, send: int, i: nat)
    requires Dealt(q, q', me, share, cur, v, left, send, i) && i == me < |q|
    ensures Dealt(q, q', me, share, cur, v, left, send, i + 1)
  {
    hide Others, Current;
  }

  lemma DealtNext(q: seq<seq<Tid>>, q1: seq<seq<Tid>>, q': seq<seq<Tid>>, me: nat, share: nat, cur: Tid, v: seq<Tid>,
                  left1: seq<Tid>, send1: int, left: seq<Tid>, send: int, i: nat)
    requires Dealt(q, q1, me, share, cur, v, left1, send1, i) && i != me && i < |q| && 0 <= send <= send1 <= |left1|
    requires |q'| == |q1| && q' == q1[i := q'[i]] && q'[i] == q1[i] + Others(left1[..send1 - send], cur)
    requires left == left1[send1 - send..] + Current(left1[..send1 - send], cur) && send1 > 0
    requires (send == 0 || |q'[i]| >= share) && (|q'[i]| == |q1[i]| || |q'[i]| <= share)
    ensures Dealt(q, q', me, share, cur, v, left, send, i + 1)
  {
    hide Others, Current, Gifts, Room;
    Passed(v, |v| - send1, send1 - send, cur, left1);
    GiftsNext(q, q1, q', me, i);
    assert q'[i][|q[i]|..] == Others(left1[..send1 - send], cur);
    RoomNext(q, me, share, i);
    OthersFewer(left1[..send1 - send], cur);
  }

  lemma DealtAll(q: seq<seq<Tid>>, q': seq<seq<Tid>>, me: nat, share: nat, cur: Tid, v: seq<Tid>,
                 left: seq<Tid>, send: int, i: nat)
    requires Dealt(q, q', me, share, cur, v, left, send, i) && (i == |q| || send <= 0)
    ensures (forall k | 0 <= k < |q| && k != me :: GrewWithin(q[k], q'[k], share)) && InTurn(q, q', me, share, |q|)
    ensures |v| <= Room(q, me, share, 0) ==> left == Current(v, cur) && Gifts(q, q', me, |q|) == Others(v, cur)
  {
    hide Others, Current, Gifts;
    NoMoreGifts(q, q', me, i, |q|);
    assert send == 0 ==> v[..|v| - send] == v;
  }

  /** After the next victim. */
  lemma PassOne(v: seq<Tid>, m: nat, cur: Tid, left: seq<Tid>)
    requires m < |v| && left == v[m..] + Current(v[..m], cur)
    ensures left[0] == v[m] && left[1..] + (if v[m] == cur then [v[m]] else []) == v[m + 1..] + Current(v[..m + 1], cur)
    ensures Others(v[..m + 1], cur) == Others(v[..m], cur) + if v[m] == cur then [] else [v[m]]
  {
    hide Others, Current;
    SplitOne(v, m, cur);
    assert left[1..] == v[m + 1..] + Current(v[..m], cur);
  }

  lemma NoneYet(q: seq<seq<Tid>>, me: nat, v: seq<Tid>, cur: Tid)
    ensures Gifts(q, q, me, 0) == [] == Others(v[..0], cur) && v == v[0..] + Current(v[..0], cur)
  {
  }

  /** After the next x victims. */
  lemma Passed(v: seq<Tid>, m: nat, x: nat, cur: Tid, left: seq<Tid>)
    requires m + x <= |v| && left == v[m..] + Current(v[..m], cur)
    ensures left[x..] + Current(left[..x], cur) == v[m + x..] + Current(v[..m + x], cur)
    ensures Others(v[..m + x], cur) == Others(v[..m], cur) + Others(left[..x], cur)
  {
    hide Others, Current;
    assert left[..x] == v[m..m + x];
    Split(v, m, m + x, cur);
    assert left[x..] == v[m + x..] + Current(v[..m], cur);
  }

  lemma GiftsNext(q: seq<seq<Tid>>, q1: seq<seq<Tid>>, q': seq<seq<Tid>>, me: nat, i: nat)
    requires i < |q| == |q1| == |q'| && q' == q1[i := q'[i]] && q[i] <= q'[i]
    ensures Gifts(q, q', me, i + 1) == Gifts(q, q1, me, i) + if i == me then [] else q'[i][|q[i]|..]
  {
    SameGifts(q, q, q1, q', me, i);
  }

  lemma RoomNext(q: seq<seq<Tid>>, me: nat, share: nat, i: nat)
    requires i < |q|
    ensures Room(q, me, share, i) == (if i == me then 0 else share - |q[i]|) + Room(q, me, share, i + 1)
  {
  }

  lemma Balance(a: multiset<Tid>, x: multiset<Tid>, v: multiset<Tid>, a': multiset<Tid>, x': multiset<Tid>,
                v': multiset<Tid>, sum: multiset<Tid>)
    requires a + v == sum && x' + v' == x + v && a' + x == a + x'
    ensures a' + v' == sum
  {
    forall t ensures (a' + v')[t] == sum[t] {
      assert a[t] + v[t] == (a + v)[t] && (x' + v')[t] == (x + v)[t] && (a' + x)[t] == (a + x')[t];
    }
  }

  /** The other queues have room for everything above our share. */
  lemma Enough(q: seq<seq<Tid>>, q': seq<seq<Tid>>, me: nat, share: nat, send: nat)
    requires me < |q| == |q'| && share == Share(Total(q, 0), |q|) && |q[me]| == share + send && q' == q[me := q'[me]]
    ensures send <= Room(q', me, share, 0)
  {
    RoomTotal(q, me, share, 0);
    SameRoom(q, q', me, share, 0);
  }

  lemma {:induction false} SameRoom(q: seq<seq<Tid>>, q': seq<seq<Tid>>, me: nat, share: nat, i: nat)
    requires i <= |q| == |q'| && forall k | 0 <= k < |q| && k != me :: q'[k] == q[k]
    ensures Room(q', me, share, i) == Room(q, me, share, i)
    decreases |q| - i
  {
    if i < |q| {
      SameRoom(q, q', me, share, i + 1);
    }
  }
}
