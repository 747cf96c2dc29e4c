/**
 The buffer pool shared by two threads (full_custom/common.c).

 A slot's order number is its whole state: 0 is empty, -1 is in some thread's hands,
 a positive number is ready and carries that order.  `Shared` is the memory the two mutexes
 guard; each critical section of the C code is one function on it, and `Pool` is the
 same thing as an object updated in place.
 */
module BufferPool {
  const INT_MAX: int := 0x7fff_ffff
  const EMPTY: int := 0
  const IN_USE: int := -1

  datatype Shared<D> = Shared(orderNo: seq<int>, data: seq<D>, nReady: nat)

  ghost predicate WellFormed<D>(sh: Shared<D>) {
    |sh.data| == |sh.orderNo|
  }

  /** The first empty slot, or -1. */
  function FindEmpty(no: seq<int>): (r: int)
    ensures -1 <= r < |no|
    ensures r == -1 <==> EMPTY !in no
    ensures r >= 0 ==> no[r] == EMPTY && forall j :: 0 <= j < r ==> no[j] != EMPTY
  {
    if no == [] then -1
    else
      var r := FindEmpty(no[..|no| - 1]);
      if r != -1 then r
      else if no[|no| - 1] == EMPTY then |no| - 1
      else -1
  }

  /** The ready slot of least order, or -1.  Orders of INT_MAX and above are invisible to the search. */
  function FindLowest(no: seq<int>): (r: int)
    ensures -1 <= r < |no|
    ensures r == -1 <==> forall i :: 0 <= i < |no| ==> !(0 < no[i] < INT_MAX)
    ensures r >= 0 ==> 0 < no[r] < INT_MAX
    ensures r >= 0 ==> forall i :: 0 <= i < |no| && 0 < no[i] ==> no[r] <= no[i]
    ensures r >= 0 ==> forall i :: 0 <= i < r && 0 < no[i] ==> no[r] < no[i]
  {
    if no == [] then -1
    else
      var r := FindLowest(no[..|no| - 1]);
      var low := if r == -1 then INT_MAX else no[r];
      if 0 < no[|no| - 1] < low then |no| - 1 else r
  }

  // The critical sections.

  /** fetchEmptyBuffer: claim the first empty slot, if there is one. */
  function TakeEmpty<D>(sh: Shared<D>): Shared<D> {
    var i := FindEmpty(sh.orderNo);
    if i == -1 then sh else sh.(orderNo := sh.orderNo[i := IN_USE])
  }

  /** returnBuffer, first update: publish the slot's order and contents. */
  function Publish<D>(sh: Shared<D>, i: nat, order: int, d: D): Shared<D>
    requires WellFormed(sh) && i < |sh.orderNo|
  {
    sh.(orderNo := sh.orderNo[i := order], data := sh.data[i := d])
  }

  /** returnBuffer, second update: count the slot as ready. */
  function Count<D>(sh: Shared<D>): Shared<D> {
    sh.(nReady := sh.nReady + 1)
  }

  /** returnEmptyBuffer. */
  function Release<D>(sh: Shared<D>, i: nat): Shared<D>
    requires i < |sh.orderNo|
  {
    sh.(orderNo := sh.orderNo[i := EMPTY])
  }

  /** fetchBuffer, first lock: take one token. */
  function TakeToken<D>(sh: Shared<D>): Shared<D>
    requires sh.nReady > 0
  {
    sh.(nReady := sh.nReady - 1)
  }

  /** fetchBuffer, second lock: claim the ready slot of lowest order. */
  function TakeLowest<D>(sh: Shared<D>): Shared<D> {
    var i := FindLowest(sh.orderNo);
    if i == -1 then sh else sh.(orderNo := sh.orderNo[i := IN_USE])
  }

  /** The pool as the program holds it: arrays searched by loops and updated in place. */
  class Pool<D> {
    const orderNo: array<int>
    const data: array<D>
    var nReady: nat

    ghost predicate Valid()
      reads this
    {
      && data.Length == orderNo.Length
      && (orderNo as object) != (data as object)
    }

    ghost function View(): Shared<D>
      reads this, orderNo, data
    {
      Shared(orderNo[..], data[..], nReady)
    }

    constructor (n: nat, blank: D)
      ensures Valid() && fresh(orderNo) && fresh(data)
      ensures View() == Shared(seq(n, _ => EMPTY), seq(n, _ => blank), 0)
    {
      orderNo := new int[n](_ => EMPTY);
      data := new D[n](_ => blank);
      nReady := 0;
      new;
      assert orderNo[..] == seq(n, _ => EMPTY);
      assert data[..] == seq(n, _ => blank);
    }

    method SearchEmpty() returns (index: int)
      ensures index == FindEmpty(orderNo[..])
    {
      index := -1;
      var k := 0;
      while k < orderNo.Length
        invariant 0 <= k <= orderNo.Length
        invariant index == -1 == FindEmpty(orderNo[..k])
      {
        assert orderNo[..k + 1][..k] == orderNo[..k];
        if orderNo[k] == EMPTY {
          index := k;
          EmptyFoundEarly(orderNo[..], k);
          return;
        }
        k := k + 1;
      }
      assert orderNo[..k] == orderNo[..];
    }

    method SearchLowest() returns (index: int)
      ensures index == FindLowest(orderNo[..])
    {
      index := -1;
      var lowest := INT_MAX;
      var k := 0;
      while k < orderNo.Length
        invariant 0 <= k <= orderNo.Length
        invariant index == FindLowest(orderNo[..k])
        invariant lowest == if index == -1 then INT_MAX else orderNo[index]
      {
        assert orderNo[..k + 1][..k] == orderNo[..k];
        if orderNo[k] < lowest && orderNo[k] > 0 {
          lowest := orderNo[k];
          index := k;
        }
        k := k + 1;
      }
      assert orderNo[..k] == orderNo[..];
    }

    method FetchEmptyBuffer() returns (index: int)
      requires Valid()
      modifies orderNo
      ensures index == FindEmpty(old(orderNo[..]))
      ensures View() == TakeEmpty(old(View()))
    {
      index := SearchEmpty();
      if index != -1 {
        orderNo[index] := IN_USE;
      }
    }

    /** Fails, changing nothing, when the slot is not in use: the C code ends the process there. */
    method ReturnBuffer(index: nat, order: int, d: D) returns (integrity: bool)
      requires Valid() && index < orderNo.Length
      modifies this`nReady, orderNo, data
      ensures integrity == (old(orderNo[index]) == IN_USE)
      ensures View() == if integrity then Count(Publish(old(View()), index, order, d)) else old(View())
    {
      integrity := orderNo[index] == IN_USE;
      if integrity {
        orderNo[index] := order;
        data[index] := d;
        nReady := nReady + 1;
      }
    }

    method ReturnEmptyBuffer(index: nat) returns (integrity: bool)
      requires Valid() && index < orderNo.Length
      modifies orderNo
      ensures integrity == (old(orderNo[index]) == IN_USE)
      ensures View() == if integrity then Release(old(View()), index) else old(View())
    {
      integrity := orderNo[index] == IN_USE;
      if integrity {
        orderNo[index] := EMPTY;
      }
    }

    /** fetchBuffer's poll of the counter: false means spin again, or give up when the program stops. */
    method PollToken() returns (got: bool)
      modifies this`nReady
      ensures got == (old(nReady) > 0)
      ensures View() == if got then TakeToken(old(View())) else old(View())
    {
      got := nReady > 0;
      if got {
        nReady := nReady - 1;
      }
    }

    method FetchLowest(blank: D) returns (index: int, order: int, d: D)
      requires Valid()
      modifies orderNo
      ensures index == FindLowest(old(orderNo[..]))
      ensures View() == TakeLowest(old(View()))
      ensures index != -1 ==> order == old(orderNo[index]) && d == old(data[index])
    {
      index := SearchLowest();
      order, d := 0, blank;
      if index != -1 {
        order, d := orderNo[index], data[index];
        orderNo[index] := IN_USE;
      }
    }
  }

  /** The search may stop at the first empty slot. */
  lemma {:induction false} EmptyFoundEarly(no: seq<int>, k: nat)
    requires k < |no| && no[k] == EMPTY && FindEmpty(no[..k]) == -1
    ensures FindEmpty(no) == k
  {
    assert no[k] in no;
    assert forall j :: 0 <= j < k ==> no[j] == no[..k][j];
  }
}
