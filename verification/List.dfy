/** The growable array behind every list. */
module List {
  import opened Common

  const SIZE_INCREMENT: nat := 10

  class List<T(0, ==)> {
    var arr: array<T>
    var arrLen: nat

    predicate Valid()
      reads this
    {
      arrLen <= arr.Length
    }

    function Contents(): seq<T>
      reads this, arr
      requires Valid()
    {
      arr[..arrLen]
    }

    constructor ()
      ensures Valid() && Contents() == [] && fresh(arr)
    {
      arr := new T[0];
      arrLen := 0;
    }

    /** A full array is replaced by a larger copy. */
    method Append(obj: T)
      requires Valid()
      modifies this, arr
      ensures Valid() && Contents() == old(Contents()) + [obj]
      ensures arr == old(arr) || fresh(arr)
    {
      if arrLen + 1 >= arr.Length {
        var tmpArr := new T[arr.Length + SIZE_INCREMENT];
        for i := 0 to arrLen
          invariant Valid() && arr == old(arr) && arrLen == old(arrLen) && arr[..] == old(arr[..])
          invariant tmpArr[..i] == arr[..i]
        {
          tmpArr[i] := arr[i];
        }
        arr := tmpArr;
      }
      arr[arrLen] := obj;
      arrLen := arrLen + 1;
    }

    /** The first position of the object, compared by identity. */
    method IndexOf(o: T) returns (pos: Option<nat>)
      requires Valid()
      ensures match pos
        case None => o !in Contents()
        case Some(i) => i < |Contents()| && Contents()[i] == o && o !in Contents()[..i]
    {
      for i := 0 to arrLen
        invariant o !in arr[..i]
      {
        if o == arr[i] {
          assert Contents()[..i] == arr[..i];
          return Some(i);
        }
      }
      return None;
    }

    method ElementAt(pos: nat) returns (res: Result<T>)
      requires Valid()
      ensures res == if pos < |Contents()| then Ok(Contents()[pos]) else Err(BufferOverflow)
    {
      if pos >= arrLen {
        return Err(BufferOverflow);
      }
      return Ok(arr[pos]);
    }

    /** The bound test lets the position behind the last element through; callers never use it. */
    method ReplaceAt(pos: nat, o: T) returns (res: Result<()>)
      requires Valid() && pos != |Contents()|
      modifies arr
      ensures pos < |old(Contents())| ==> res == Ok(()) && Contents() == old(Contents())[pos := o]
      ensures pos > |old(Contents())| ==> res == Err(InvalidArgument) && Contents() == old(Contents())
    {
      if pos > arrLen {
        return Err(InvalidArgument);
      }
      arr[pos] := o;
      return Ok(());
    }

    /** Shifts the tail over the removed element. */
    method Remove(pos: nat) returns (res: Result<()>)
      requires Valid()
      modifies this`arrLen, arr
      ensures Valid()
      ensures if pos < |old(Contents())|
        then res == Ok(()) && Contents() == old(Contents())[..pos] + old(Contents())[pos + 1..]
        else res == Err(InvalidArgument) && Contents() == old(Contents())
    {
      if pos >= arrLen {
        return Err(InvalidArgument);
      }
      for i := pos + 1 to arrLen
        invariant arrLen == old(arrLen) && Valid()
        invariant arr[..i - 1] == old(arr[..pos]) + old(arr[pos + 1..i])
        invariant arr[i..] == old(arr[i..])
      {
        arr[i - 1] := arr[i];
      }
      arrLen := arrLen - 1;
      return Ok(());
    }
  }
}
