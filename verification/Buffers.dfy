/** The growable arrays of the kernel: thread queues, event combinations and the queue of deferred
    assignments all double their capacity on demand and never move an element. */
module Buffers {

  class Buffer<T(0)> {
    var data: array<T>
    var num: nat

    ghost predicate Valid()
      reads this
    {
      num <= data.Length
    }

    ghost function Contents(): seq<T>
      reads this, data
      requires Valid()
    {
      data[..num]
    }

    constructor ()
      ensures Valid() && Contents() == [] && data.Length == 0 && fresh(data)
    {
      data := new T[0];
      num := 0;
    }

    /** `stimc_thread_queue_prepare` and `stimc_event_combination_prepare`: the capacity starts with
        `initial` and is doubled until it suffices; the contents survive the reallocation. */
    method Prepare(minLen: nat, initial: nat)
      requires Valid() && initial > 0
      modifies this
      ensures Valid() && num == old(num) && Contents() == old(Contents())
      ensures minLen <= data.Length && old(data.Length) <= data.Length
      ensures if minLen <= old(data.Length) then data == old(data)
              else fresh(data) && data.Length < 2 * minLen + initial
    {
      if minLen <= data.Length { return; }
      var max := if data.Length == 0 then initial else data.Length;
      while minLen > max
        invariant 0 < max && data.Length <= max && max < 2 * minLen + initial
        decreases minLen - max
      {
        max := max * 2;
      }
      var d := new T[max];
      var i := 0;
      while i < num
        invariant data == old(data) && num == old(num) && i <= num <= data.Length <= d.Length
        invariant data[..] == old(data[..]) && d[..i] == data[..i]
      {
        d[i] := data[i];
        i := i + 1;
      }
      data := d;
    }

    /** Appending at the end, as in `stimc_thread_queue_enqueue`; the result is the new element's index. */
    method Append(x: T, initial: nat) returns (idx: nat)
      requires Valid() && initial > 0
      modifies this, data
      ensures Valid() && Contents() == old(Contents()) + [x] && idx == old(num)
      ensures data == old(data) || fresh(data)
    {
      ghost var before := Contents();
      Prepare(num + 1, initial);
      idx := num;
      data[num] := x;
      num := num + 1;
      assert data[..num - 1] == before;
    }

    /** Clearing keeps the capacity. */
    method Clear()
      requires Valid()
      modifies `num
      ensures Valid() && Contents() == []
    {
      num := 0;
    }
  }
}
