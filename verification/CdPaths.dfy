/** Completing requests: the loops over the path of CDs and its notes, in place. */
module CdPaths {
  import opened Bytes
  import opened LogModel
  import opened CdLogs

  class CdPath {
    var path: seq<Cd>

    constructor (root: Cd)
      requires ValidCd(root)
      ensures path == [root]
    {
      path := [root];
    }

    // ---- CD::ProbeAndLogData ----

    /** Looks for the note of a request, from the current CD upwards. */
    method FindNote(flag: nat) returns (found: bool, k: nat, j: nat)
      ensures found == Holder(path, flag).Some?
      ensures found ==> Holder(path, flag) == Some(k) && j == FindFlag(path[k].incomplete, flag)
    {
      k, j := |path|, 0;
      while k > 0
        invariant k <= |path|
        invariant forall i :: k <= i < |path| ==> !Holds(path[i], flag)
      {
        k := k - 1;
        j := 0;
        while j < |path[k].incomplete|
          invariant j <= FindFlag(path[k].incomplete, flag)
        {
          if path[k].incomplete[j].flag == flag {
            return true, k, j;
          }
          j := j + 1;
        }
      }
      found := false;
    }

    /** Looks for a packed child with the entry, from the parent upwards. */
    method PatchAbove(data: seq<byte>, flag: nat) returns (ok: bool)
      requires ValidPath(path)
      modifies this
      ensures ok == FillAbove(old(path), |old(path)| - 1, data, flag).Some?
      ensures ok ==> path == FillAbove(old(path), |old(path)| - 1, data, flag).value
    {
      hide Valid, FirstKid;
      var n: nat := |path| - 1;
      while n > 0 && path[n - 1].relaxed
        invariant n < |path| && path == old(path)
        invariant FillAbove(path, |path| - 1, data, flag) == FillAbove(path, n, data, flag)
      {
        assert ValidCd(path[n - 1]);
        if FirstKid(path[n - 1].kids, flag) < |path[n - 1].kids| {
          var kids := FillKid(path[n - 1].kids, data, flag);
          if kids.Some? {
            path := path[n - 1 := path[n - 1].(kids := kids.value)];
          }
          return kids.Some?;
        }
        n := n - 1;
      }
      ok := true;
    }

    /** The payload goes into the entry of the current CD's log, or of a packed child further up. */
    method FillEntry(data: seq<byte>, flag: nat) returns (ok: bool)
      requires ValidPath(path)
      modifies this
      ensures ok == FillPath(old(path), data, flag).Some?
      ensures ok ==> path == FillPath(old(path), data, flag).value
    {
      hide Valid, FirstFlag, FillAbove;
      var c := Top(path);
      assert ValidCd(c);
      if FirstFlag(c.log.table, flag) == |c.log.table| {
        ok := PatchAbove(data, flag);
        return;
      }
      var l := Fill(c.log, data, flag);
      if l.Some? {
        path := WithTop(path, c.(log := l.value));
      }
      ok := l.Some?;
    }

    /** CD::ProbeAndLogData. Not ok: the run ends in an assertion. */
    method ProbeAndLogData(flag: nat) returns (ok: bool)
      requires ValidPath(path)
      modifies this
      ensures ok == Complete(old(path), flag).Some?
      ensures ok ==> path == Complete(old(path), flag).value && ValidPath(path)
    {
      hide Valid, Holder, FindFlag, FillPath, LogTop;
      var found, k, j := FindNote(flag);
      if !found {
        return false;
      }
      var it := path[k].incomplete[j];
      if !it.intra {
        var filled := FillEntry(it.arrives, flag);
        if !filled {
          return false;
        }
      }
      path := LogTop(path, [], it.task);
      path := path[k := path[k].(incomplete := Remove(path[k].incomplete, j))];
      ok := true;
    }

    /** The wrappers' loop over an array of requests. */
    method CompleteEach(flags: seq<nat>) returns (ok: bool)
      requires ValidPath(path)
      modifies this
      ensures ok == CompleteAll(old(path), flags).Some?
      ensures ok ==> path == CompleteAll(old(path), flags).value && ValidPath(path)
    {
      hide ValidPath, Complete;
      var i := 0;
      while i < |flags|
        invariant i <= |flags| && ValidPath(path)
        invariant CompleteAll(old(path), flags) == CompleteAll(path, flags[i..])
      {
        var done := ProbeAndLogData(flags[i]);
        assert flags[i..][1..] == flags[i + 1..];
        if !done {
          return false;
        }
        i := i + 1;
      }
      ok := true;
    }
  }
}
