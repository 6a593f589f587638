/** Vectored file writes: the kernel may take any non-empty part of what is
    left, and every byte must still arrive exactly once and in order. */
module VectorWrite {
  import opened PageBytes
  import opened PageTransfer

  lemma CatFirst<T>(first: seq<T>, rest: seq<seq<T>>)
    ensures Cat([first] + rest) == first + Cat(rest)
  {
    CatAppend([first], rest);
    assert [first][..0] == [];
  }

  /** Drops `count` bytes that have been taken from the front. */
  method Unwritten(views: seq<seq<Byte>>, count: nat) returns (left: seq<seq<Byte>>)
    requires count <= |Cat(views)|
    ensures Cat(left) == Cat(views)[count..] && (left != [] ==> left[0] != [])
  {
    var n := count;
    left := views;
    while left != [] && n >= |left[0]|
      invariant 0 <= n <= |Cat(left)| && Cat(left)[n..] == Cat(views)[count..]
    {
      ghost var before := Cat(left);
      assert left == [left[0]] + left[1..];
      CatFirst(left[0], left[1..]);
      assert before[n..] == Cat(left[1..])[n - |left[0]|..];
      n, left := n - |left[0]|, left[1..];
    }
    if left != [] && n > 0 {
      assert left == [left[0]] + left[1..];
      CatFirst(left[0], left[1..]);
      CatFirst(left[0][n..], left[1..]);
      left := [left[0][n..]] + left[1..];
    }
  }

  lemma NotEmpty(views: seq<seq<Byte>>)
    requires views != [] && views[0] != []
    ensures Cat(views) != []
  {
    assert views == [views[0]] + views[1..];
    CatFirst(views[0], views[1..]);
  }

  class OpenFile {
    var content: seq<Byte>
    /** How many system calls took nothing although something was left. */
    ghost var faults: nat

    constructor ()
      ensures content == []
    {
      content, faults := [], 0;
    }

    /** The system call: appends some first bytes of the views. */
    method Writev(views: seq<seq<Byte>>) returns (count: int)
      modifies this
      ensures count <= |Cat(views)|
      ensures content == if count <= 0 then old(content) else old(content) + Cat(views)[..count]
      ensures faults == old(faults) + if count <= 0 && Cat(views) != [] then 1 else 0
    {
      count := *;
      if count > |Cat(views)| {
        count := 0;
      }
      if count > 0 {
        content := content + Cat(views)[..count];
      }
      faults := if count <= 0 && Cat(views) != [] then faults + 1 else faults;
    }

    /** Writes all parts; on failure some first bytes of them are in the file. It
        fails only after a failing call, or when there is nothing to write. */
    method WriteVector(parts: seq<seq<Byte>>) returns (ok: bool)
      modifies this
      ensures ok ==> content == old(content) + Cat(parts)
      ensures faults == old(faults) && (parts == [] || Cat(parts) != []) ==> ok
      ensures old(content) <= content <= old(content) + Cat(parts)
    {
      var views := parts;
      while views != []
        invariant content + Cat(views) == old(content) + Cat(parts) && old(content) <= content
        invariant faults == old(faults) && (parts == [] ==> views == [])
        invariant Cat(parts) != [] && views != [] ==> Cat(views) != []
        decreases |Cat(views)|
      {
        ghost var before, left := content, Cat(views);
        var count := Writev(views);
        if count <= 0 {
          return false;
        }
        views := Unwritten(views, count);
        if views != [] { NotEmpty(views); }
        assert left == left[..count] + Cat(views);
        assert content + Cat(views) == before + left;
      }
      ok := true;
    }
  }
}
