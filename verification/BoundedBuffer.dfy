/**
 A bounded buffer that drops its oldest items, and the account of everything that ever went through
 it. Reading the buffer back passes each item through `clean`, which may rewrite or reject it.
 */
module BoundedBuffer {
  import opened Common

  type Cleaner<!T> = T -> Option<T>

  function FilterMap<S, T>(f: S -> Option<T>, items: seq<S>): (r: seq<T>)
    ensures |r| <= |items|
  {
    if items == [] then [] else Kept(f, items[0]) + FilterMap(f, items[1..])
  }

  function Kept<S, T>(f: S -> Option<T>, item: S): seq<T> {
    match f(item)
    case Some(x) => [x]
    case None => []
  }

  lemma {:induction false} FilterMapMembers<S, T>(f: S -> Option<T>, items: seq<S>)
    ensures forall x :: x in FilterMap(f, items) <==> exists i :: 0 <= i < |items| && f(items[i]) == Some(x)
  {
    if items != [] {
      var rest := items[1..];
      FilterMapMembers(f, rest);
      forall x
        ensures x in FilterMap(f, items) <==> exists i :: 0 <= i < |items| && f(items[i]) == Some(x)
      {
        if x in FilterMap(f, rest) {
          var i :| 0 <= i < |rest| && f(rest[i]) == Some(x);
          assert items[i + 1] == rest[i];
        }
        if i :| 0 <= i < |items| && f(items[i]) == Some(x) {
          assert i > 0 ==> rest[i - 1] == items[i];
        }
      }
    }
  }

  /** Cleaning a clean item changes nothing. */
  ghost predicate Idempotent<T(!new)>(clean: Cleaner<T>) {
    forall x :: clean(x).Some? ==> clean(clean(x).value) == clean(x)
  }

  predicate AllClean<T(==)>(clean: Cleaner<T>, items: seq<T>) {
    forall i :: 0 <= i < |items| ==> clean(items[i]) == Some(items[i])
  }

  lemma {:induction false} FilterMapSnoc<T>(clean: Cleaner<T>, items: seq<T>, last: T)
    requires AllClean(clean, items)
    ensures FilterMap(clean, items + [last]) == items + Kept(clean, last)
  {
    if items == [] {
      assert items + [last] == [last] && [last][1..] == [];
    } else {
      assert (items + [last])[1..] == items[1..] + [last];
      FilterMapSnoc(clean, items[1..], last);
      assert items == [items[0]] + items[1..];
    }
  }

  lemma {:induction false} FilterMapClean<T>(clean: Cleaner<T>, items: seq<T>)
    requires AllClean(clean, items)
    ensures FilterMap(clean, items) == items
  {
    if items != [] {
      FilterMapClean(clean, items[1..]);
    }
  }

  // ---------------------------------------------------------------- the account

  datatype Departure<T> = Delivered(item: T) | Dropped(item: T)

  /** Everything appended as it can be read back, how the departed items left, and what is still there. */
  datatype History<T> = History(appended: seq<T>, departed: seq<Departure<T>>, buffer: seq<T>)

  function DropAll<T>(items: seq<T>): (r: seq<Departure<T>>)
    ensures |r| == |items|
  {
    seq(|items|, i requires 0 <= i < |items| => Dropped(items[i]))
  }

  function DeliverAll<T>(items: seq<T>): (r: seq<Departure<T>>)
    ensures |r| == |items|
  {
    seq(|items|, i requires 0 <= i < |items| => Delivered(items[i]))
  }

  function ItemsOf<T>(departed: seq<Departure<T>>): (r: seq<T>)
    ensures |r| == |departed|
  {
    seq(|departed|, i requires 0 <= i < |departed| => departed[i].item)
  }

  function Overflow<T>(h: History<T>, cap: nat): nat
    requires cap >= 1
  {
    Max(0, |h.buffer| + 1 - cap)
  }

  /** Append one item, keep the newest `cap`, read back. */
  function Append<T>(clean: Cleaner<T>, h: History<T>, item: T, cap: nat): History<T>
    requires cap >= 1
  {
    var over := Overflow(h, cap);
    History(h.appended + Kept(clean, item),
            h.departed + DropAll(h.buffer[..over]),
            FilterMap(clean, (h.buffer + [item])[over..]))
  }

  /** The first `n` items are delivered. */
  function Deliver<T>(h: History<T>, n: nat): History<T>
    requires n <= |h.buffer|
  {
    h.(departed := h.departed + DeliverAll(h.buffer[..n]), buffer := h.buffer[n..])
  }

  /**
   Nothing is lost, doubled or reordered: the departures, in the order they happened, followed by
   the buffer are exactly the items appended, in their order.
   */
  ghost predicate Accounted<T>(clean: Cleaner<T>, h: History<T>) {
    ItemsOf(h.departed) + h.buffer == h.appended && AllClean(clean, h.buffer)
  }

  lemma AppendShape<T>(clean: Cleaner<T>, h: History<T>, item: T, cap: nat)
    requires AllClean(clean, h.buffer) && cap >= 1
    ensures Append(clean, h, item, cap).buffer == h.buffer[Overflow(h, cap)..] + Kept(clean, item)
    ensures |Append(clean, h, item, cap).buffer| <= cap
  {
    var kept := h.buffer[Overflow(h, cap)..];
    assert (h.buffer + [item])[Overflow(h, cap)..] == kept + [item];
    FilterMapSnoc(clean, kept, item);
  }

  lemma AppendAccounts<T(!new)>(clean: Cleaner<T>, h: History<T>, item: T, cap: nat)
    requires Idempotent(clean) && Accounted(clean, h) && cap >= 1
    ensures Append(clean, h, item, cap).buffer == h.buffer[Overflow(h, cap)..] + Kept(clean, item)
    ensures Accounted(clean, Append(clean, h, item, cap))
    ensures |Append(clean, h, item, cap).buffer| <= cap
  {
    var over, after := Overflow(h, cap), Append(clean, h, item, cap);
    AppendShape(clean, h, item, cap);
    assert AllClean(clean, after.buffer) by {
      assert AllClean(clean, Kept(clean, item));
    }
    assert ItemsOf(after.departed) == ItemsOf(h.departed) + h.buffer[..over];
    Rejoin(ItemsOf(h.departed), h.buffer, over, Kept(clean, item));
  }

  lemma Rejoin<T>(gone: seq<T>, buffer: seq<T>, over: nat, more: seq<T>)
    requires over <= |buffer|
    ensures gone + buffer[..over] + (buffer[over..] + more) == gone + buffer + more
  {
    assert buffer == buffer[..over] + buffer[over..];
  }

  lemma DeliverAccounts<T>(clean: Cleaner<T>, h: History<T>, n: nat)
    requires Accounted(clean, h) && n <= |h.buffer|
    ensures Accounted(clean, Deliver(h, n))
  {
    var after := Deliver(h, n);
    assert ItemsOf(after.departed) == ItemsOf(h.departed) + h.buffer[..n];
    assert h.buffer == h.buffer[..n] + h.buffer[n..];
  }

  /** An accounted buffer is the part of the append history that has not departed. */
  lemma AccountedIsSuffix<T>(clean: Cleaner<T>, h: History<T>)
    requires Accounted(clean, h)
    ensures |h.departed| <= |h.appended|
    ensures h.buffer == h.appended[|h.departed|..]
    ensures ItemsOf(h.departed) == h.appended[..|h.departed|]
  {
  }
}
