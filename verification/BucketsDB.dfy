/** The in-memory store as the program keeps it: a map of timelines, each a slice that is
    trimmed, extended and emptied in place. No two timelines share an array. */
module BucketsStore {
  import opened SlidingWindow
  import opened Buckets

  /** A timeline's `times` is a slice: `size` elements of `buf` from `start`, with capacity to
      the end of the array. The ghost `times` is the list the slice stands for. */
  class Timeline {
    var buf: array<int>
    var start: nat
    var size: nat
    ghost var times: seq<int>

    ghost predicate Valid()
      reads this, buf
    {
      start + size <= buf.Length && times == buf[start..start + size]
    }

    /** make([]int64, 0, 16) */
    constructor ()
      ensures Valid() && times == [] && fresh(buf)
    {
      buf := new int[16];
      start, size, times := 0, 0, [];
    }

    /** times[i:] */
    method Advance(i: nat)
      requires Valid() && i <= size
      modifies this
      ensures Valid() && buf == old(buf) && times == old(times)[i..]
    {
      start, size, times := start + i, size - i, times[i..];
    }

    /** append(times, stamp): in place while the capacity lasts, otherwise into a fresh array
        of some larger capacity. */
    method Append(stamp: int)
      requires Valid()
      modifies this, buf
      ensures Valid() && (buf == old(buf) || fresh(buf))
      ensures times == old(times) + [stamp]
    {
      if start + size == buf.Length {
        Grow();
      }
      buf[start + size] := stamp;
      size, times := size + 1, times + [stamp];
    }

    /** The same list in a fresh array with room at the end. */
    method Grow()
      requires Valid()
      modifies this
      ensures Valid() && fresh(buf) && times == old(times) && size == old(size) && start + size < buf.Length
    {
      var capacity: nat :| capacity > size by { assert size + 1 > size; }
      var grown := new int[capacity];
      forall i | 0 <= i < size {
        grown[i] := buf[start + i];
      }
      buf, start := grown, 0;
    }

    /** times[:0] */
    method Truncate()
      requires Valid()
      modifies this
      ensures Valid() && buf == old(buf) && times == []
    {
      size, times := 0, [];
    }

    method CountExpired(cut: int) returns (i: nat)
      requires Valid()
      ensures i == TrimCount(times, cut)
    {
      i := 0;
      while i < size && buf[start + i] <= cut
        invariant 0 <= i <= size
        invariant forall j :: 0 <= j < i ==> times[j] <= cut
      {
        i := i + 1;
      }
      assert i < size ==> times[i] > cut;
    }

    /** What `Allow` does under the timeline's lock: it refines `Admit`, and the list never
        outgrows the limit. */
    method Admission(limit: int, window: int, now: int) returns (ok: bool)
      requires Valid() && limit > 0 && window > 0
      modifies this, buf
      ensures Valid() && (buf == old(buf) || fresh(buf))
      ensures Outcome(ok, times) == Admit(old(times), Rule(limit, window), now)
      ensures old(size) <= limit ==> size <= limit
    {
      var i := CountExpired(Cut(now, window));
      if i > 0 {
        Advance(i);
      }
      if size >= limit {
        return false;
      }
      Append(Stamp(now));
      ok := true;
    }
  }

  lemma UpdatedTwice(b: Buckets, key: string, first: seq<int>, second: seq<int>)
    ensures b[key := first][key := second] == b[key := second]
  {
  }

  class BucketsDB {
    var data: map<string, Timeline>
    ghost var View: Buckets                  // the store as a value
    ghost var Owner: map<object, string>     // timelines and arrays, each with its one key

    ghost predicate Keeps(key: string)
      requires key in data && key in View
      reads this, Owner.Keys
    {
      var tl := data[key];
      && tl in Owner && Owner[tl] == key && tl.buf in Owner && Owner[tl.buf] == key
      && tl.Valid() && tl.times == View[key]
    }

    /** Each key has a timeline and an array of its own. */
    ghost predicate Valid()
      reads this, Owner.Keys
    {
      && this !in Owner && View.Keys == data.Keys
      && forall k :: k in data ==> Keeps(k)
    }

    /** If one key is in order again, and the timelines and arrays of all others were neither
        touched nor given away, the store is in order. */
    twostate lemma ValidAgain(key: string)
      requires old(Valid()) && this !in Owner && View.Keys == data.Keys
      requires key in data && Keeps(key)
      requires forall k :: k in data && k != key ==> k in old(data) && data[k] == old(data[k]) && View[k] == old(View[k])
      requires forall o :: o in old(Owner) && old(Owner)[o] != key ==> o in Owner && Owner[o] == old(Owner)[o] && unchanged(o)
      ensures Valid()
    {
      forall k | k in data && k != key ensures Keeps(k) {
        assert old(Keeps(k));
      }
    }

    constructor ()
      ensures Valid() && View == map[] && data == map[] && Owner == map[]
    {
      data, View, Owner := map[], map[], map[];
    }

    /** An existing timeline is returned and never replaced. */
    method GetTimeline(key: string) returns (tl: Timeline)
      requires Valid()
      modifies this
      ensures Valid() && (forall o :: o in Owner && o !in old(Owner) ==> fresh(o))
      ensures key in data && data[key] == tl && (forall k :: k in old(data) ==> k in data && data[k] == old(data[k]))
      ensures View == old(View)[key := Bucket(old(View), key)]
    {
      if key in data {
        tl := data[key];
        assert View == View[key := Bucket(View, key)];
      } else {
        tl := AddTimeline(key);
      }
    }

    method AddTimeline(key: string) returns (tl: Timeline)
      requires Valid() && key !in data
      modifies this
      ensures Valid() && (forall o :: o in Owner && o !in old(Owner) ==> fresh(o))
      ensures data == old(data)[key := tl] && View == old(View)[key := []]
    {
      tl := new Timeline();
      Install(key, tl);
    }

    method Install(key: string, tl: Timeline)
      requires Valid() && key !in data && tl.Valid() && tl.times == [] && tl !in Owner && tl.buf !in Owner
      modifies this
      ensures Valid() && Owner == old(Owner)[tl := key][tl.buf := key]
      ensures data == old(data)[key := tl] && View == old(View)[key := []]
    {
      data, View, Owner := data[key := tl], View[key := []], Owner[tl := key][tl.buf := key];
      assert tl.Valid();
      assert Owner[tl.buf] == key;
      assert tl in Owner && Owner[tl] == key;
      assert Keeps(key);
      ValidAgain(key);
    }

    /** One timeline of the store changes; the others do not. */
    method AdmitTo(key: string, tl: Timeline, limit: int, window: int, now: int) returns (ok: bool)
      requires Valid() && key in data && data[key] == tl && limit > 0 && window > 0
      modifies this`View, this`Owner, tl, tl.buf
      ensures Valid() && (forall o :: o in Owner && o !in old(Owner) ==> fresh(o))
      ensures Outcome(ok, tl.times) == Admit(old(View)[key], Rule(limit, window), now)
      ensures View == old(View)[key := tl.times]
    {
      assert Keeps(key);
      ok := tl.Admission(limit, window, now);
      View, Owner := View[key := tl.times], Owner[tl.buf := key];
      assert tl.Valid();
      assert Owner[tl.buf] == key;
      assert tl in Owner && Owner[tl] == key;
      assert Keeps(key);
      ValidAgain(key);
    }

    /** `Allow` after its early returns. */
    method Charge(key: string, limit: int, window: int, now: int) returns (ok: bool)
      requires Valid() && limit > 0 && window > 0
      modifies this, Owner.Keys
      ensures Valid() && (forall o :: o in Owner && o !in old(Owner) ==> fresh(o))
      ensures var out := Admit(Bucket(old(View), key), Rule(limit, window), now);
        View == old(View)[key := out.times] && ok == out.ok
    {
      var tl := GetTimeline(key);
      assert Keeps(key);
      ok := AdmitTo(key, tl, limit, window, now);
      UpdatedTwice(old(View), key, Bucket(old(View), key), tl.times);
    }

    method Allow(key: string, limit: int, window: int, now: int) returns (ok: bool)
      requires Valid()
      modifies this, Owner.Keys
      ensures Valid() && (forall o :: o in Owner && o !in old(Owner) ==> fresh(o))
      ensures (View, ok) == AllowAt(old(View), key, Rule(limit, window), now)
      ensures limit <= 0 ==> !ok && View == old(View)
      ensures limit > 0 && window <= 0 ==> ok && View == old(View)
    {
      if limit <= 0 {
        return false;
      }
      if window <= 0 {
        return true;
      }
      ok := Charge(key, limit, window, now);
    }

    method Reset(key: string)
      requires Valid()
      modifies this`View, Owner.Keys
      ensures Valid() && data == old(data) && Owner == old(Owner)
      ensures View == ResetAt(old(View), key)
    {
      if key !in data {
        return;
      }
      assert Keeps(key);
      Empty(key, data[key]);
    }

    method Empty(key: string, tl: Timeline)
      requires Valid() && key in data && data[key] == tl
      modifies this`View, tl
      ensures Valid() && View == old(View)[key := []]
    {
      assert Keeps(key);
      tl.Truncate();
      View := View[key := []];
      ValidAgain(key);
    }
  }
}
