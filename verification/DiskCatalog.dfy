/**
 The catalog on a local disk: write-once objects, and a pointer replaced by rename under a file lock.

 Any call on the file system may fail. Failures are drawn arbitrarily, so what is stated holds however
 the disk behaves; what it does when nothing fails is stated besides.
 */
module DiskCatalog {
  import opened Keys

  const MAX_TOKEN: nat := 0xFFFF_FFFF_FFFF_FFFF

  datatype Entry = Entry(generation: nat, token: nat)

  datatype Status = Ok | Config | Io

  datatype Swap = Swapped(entry: Entry) | Fenced | Failed | Unusable

  /** What goes wrong while an object is written, if anything; a write that fails is the one after so many went well. */
  datatype Fault = Healthy | Opening | Writing(after: nat, unlinks: bool) | Syncing

  /** Which calls on the file system succeed, in the order `compare_and_set` makes them. */
  datatype Disk = Disk(locks: bool, renames: bool, syncs: bool)

  class Catalog {
    var files: map<nat, Bytes>
    var current: Option<Entry>
    ghost var installs: seq<Entry>

    /** The pointer is the last install, and the `i`-th install carries token `i + 1`. */
    ghost predicate Valid()
      reads this
    {
      && current == (if installs == [] then None else Some(installs[|installs| - 1]))
      && (forall i :: 0 <= i < |installs| ==> installs[i].token == i + 1 <= MAX_TOKEN)
    }

    constructor ()
      ensures Valid() && files == map[] && installs == []
    {
      files, current, installs := map[], None, [];
    }

    /** Created exclusively, written in as many pieces as the system takes, synced, or removed again. */
    method WriteObject(path: nat, bytes: Bytes, fault: Fault) returns (status: Status)
      modifies this`files
      ensures fault == Opening ==> status == Io && files == old(files)
      ensures path in old(files) && fault != Opening ==> status == Config && files == old(files)
      ensures path !in old(files) && (fault == Healthy || fault == Syncing) ==>
                status == (if fault == Healthy then Ok else Io) && files == old(files)[path := bytes]
      ensures path !in old(files) && fault.Writing? && status == Io ==>
                if fault.unlinks then files == old(files)
                else path in files && files[path] < bytes && files == old(files)[path := files[path]]
      ensures path !in old(files) && fault.Writing? && status != Io ==>
                status == Ok && files == old(files)[path := bytes] && (fault.after == 0 ==> bytes == [])
    {
      if fault == Opening {
        return Io;
      }
      if path in files {
        return Config;
      }
      files := files[path := []];
      var written, calls := 0, 0;
      while written < |bytes|
        invariant 0 <= written <= |bytes| && files == old(files)[path := bytes[..written]]
        invariant fault.Writing? ==> calls <= fault.after
        invariant calls == 0 ==> written == 0
      {
        if fault.Writing? && calls == fault.after {
          if fault.unlinks {
            files := files - {path};
            assert files == old(files);
          }
          return Io;
        }
        var n :| 1 <= n <= |bytes| - written;
        written, calls := written + n, calls + 1;
        files := files[path := bytes[..written]];
      }
      assert bytes[..written] == bytes;
      return if fault == Syncing then Io else Ok;
    }

    /**
     `compare_and_set`. Success is exactly one new install, one token on, over exactly the entry expected;
     a fence changes nothing; a failure may come before the rename or after it.
     */
    method CompareAndSet(expected: Option<Entry>, generation: nat, disk: Disk) returns (r: Swap)
      requires Valid()
      modifies this`current, this`installs
      ensures Valid()
      ensures r.Fenced? <==> disk.locks && expected != old(current)
      ensures r.Unusable? <==> disk.locks && expected == old(current) && |old(installs)| == MAX_TOKEN
      ensures r.Swapped? <==>
                disk == Disk(true, true, true) && expected == old(current) && |old(installs)| < MAX_TOKEN
      ensures r.Swapped? ==> r.entry == Entry(generation, |old(installs)| + 1)
      ensures installs == old(installs) +
                if disk.locks && disk.renames && expected == old(current) && |old(installs)| < MAX_TOKEN
                then [Entry(generation, |old(installs)| + 1)] else []
    {
      if !disk.locks {
        return Failed;
      }
      if expected != current {
        return Fenced;
      }
      var token := 1;
      if current.Some? {
        if current.value.token == MAX_TOKEN {
          return Unusable;
        }
        token := current.value.token + 1;
      }
      if !disk.renames {
        return Failed;
      }
      current := Some(Entry(generation, token));
      installs := installs + [Entry(generation, token)];
      if !disk.syncs {
        return Failed;
      }
      return Swapped(Entry(generation, token));
    }
  }
}
