/**
  The file system as the WAV writers see it through `fopen(path, "wb")` and
  `fwrite`. Which paths cannot be opened, and how many more bytes the device
  accepts before a write comes up short, are properties of the environment
  given when the disk is created.
 */
module FileSystem {
  import opened Bytes

  /** The observable part of a disk: file contents and the space left. */
  datatype DiskState = DiskState(files: map<string, seq<byte>>, free: nat)

  /**
    Opening `path` for writing (truncating it) and writing `data` to it in one
    or more `fwrite` calls: the file ends up holding as much of `data` as the
    device accepted; `ok` says whether all of it was written.
   */
  function WriteAll(d: DiskState, readOnly: set<string>, path: string, data: seq<byte>): (r: (DiskState, bool))
    ensures path in readOnly ==> r == (d, false)
    ensures path !in readOnly ==>
      var n := Min(|data|, d.free);
      && r.0.files == d.files[path := data[..n]]
      && r.0.free == d.free - n
      && (r.1 <==> |data| <= d.free)
  {
    if path in readOnly then (d, false)
    else
      var n := Min(|data|, d.free);
      (DiskState(d.files[path := data[..n]], d.free - n), n == |data|)
  }

  class Disk {
    var files: map<string, seq<byte>>
    var free: nat
    const readOnly: set<string>

    function State(): DiskState
      reads this
    {
      DiskState(files, free)
    }

    constructor (files0: map<string, seq<byte>>, free0: nat, readOnly0: set<string>)
      ensures State() == DiskState(files0, free0) && readOnly == readOnly0
    {
      files, free, readOnly := files0, free0, readOnly0;
    }

    /** `fopen(path, "wb")`: creates or truncates `path`, or fails. */
    method Open(path: string) returns (ok: bool)
      modifies this
      ensures ok <==> path !in readOnly
      ensures ok ==> State() == DiskState(old(files)[path := []], old(free))
      ensures !ok ==> State() == old(State())
    {
      ok := path !in readOnly;
      if ok {
        files := files[path := []];
      }
    }

    /** `fwrite` of `data` to the open file `path`: returns how many bytes went out. */
    method Write(path: string, data: seq<byte>) returns (written: nat)
      requires path in files
      modifies this
      ensures written == Min(|data|, old(free))
      ensures State() == DiskState(old(files)[path := old(files)[path] + data[..written]], old(free) - written)
    {
      written := Min(|data|, free);
      files := files[path := files[path] + data[..written]];
      free := free - written;
    }
  }
}
