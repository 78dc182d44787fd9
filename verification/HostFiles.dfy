/** The host file system as the file layer uses it: regular files by path, and open descriptors with
    a path, an offset and an access mode, following the POSIX.1-2017 descriptions of open, close,
    read, write and lseek. Wherever the caller checks for failure, a call may fail; `failures`
    counts the calls that did so for a reason of the host's own. */
module HostFiles {
  import opened Protocol
  import opened PrivateFiles

  /** A VM's local file is vm_files/vm_<vm>/<name>; everything else is named by its own path. */
  datatype Path = Local(vm: nat, name: Name) | Elsewhere(path: Bytes)

  datatype HostFile = HostFile(path: Path, offset: nat, canRead: bool, canWrite: bool)

  class Host {
    var files: map<Path, Bytes>
    var open: map<int, HostFile>
    ghost var failures: nat

    constructor (files: map<Path, Bytes>)
      ensures this.files == files && open == map[] && failures == 0
    {
      this.files := files;
      open := map[];
      failures := 0;
    }

    method Fails() returns (failed: bool)
      modifies this`failures
      ensures failures == old(failures) + (if failed then 1 else 0)
    {
      failed := *;
      if failed { failures := failures + 1; }
    }

    method Open(path: Path, canRead: bool, canWrite: bool, create: bool) returns (fd: int)
      modifies this
      ensures failures >= old(failures)
      ensures fd < 0 ==> files == old(files) && open == old(open)
      ensures fd < 0 ==> failures > old(failures) || (path !in files && !create)
      ensures fd >= 0 ==>
                && (path in old(files) || create)
                && files == (if path in old(files) then old(files) else old(files)[path := []])
                && fd !in old(open) && open == old(open)[fd := HostFile(path, 0, canRead, canWrite)]
    {
      if path !in files && !create {
        return -1;
      }
      fd := *;
      if fd < 0 || fd in open {
        failures := failures + 1;
        return -1;
      }
      if path !in files {
        files := files[path := []];
      }
      open := open[fd := HostFile(path, 0, canRead, canWrite)];
    }

    method Close(fd: int) returns (result: int)
      requires fd in open
      modifies this`open, this`failures
      ensures open == old(open) - {fd}
      ensures result == 0 || (result == -1 && failures > old(failures))
      ensures failures >= old(failures)
    {
      open := open - {fd};
      var failed := Fails();
      result := if failed then -1 else 0;
    }

    /** The position of a descriptor, or -1. */
    method Tell(fd: int) returns (position: int)
      requires fd in open
      modifies this`failures
      ensures position == open[fd].offset || (position == -1 && failures > old(failures))
      ensures failures >= old(failures)
    {
      var failed := Fails();
      position := if failed then -1 else open[fd].offset;
    }

    method SeekTo(fd: int, offset: int) returns (position: int)
      requires fd in open
      modifies this`open, this`failures
      ensures failures >= old(failures)
      ensures position < 0 ==> open == old(open) && (offset < 0 || failures > old(failures))
      ensures position >= 0 ==> position == offset && open == old(open)[fd := old(open)[fd].(offset := offset)]
    {
      var failed := Fails();
      if failed || offset < 0 {
        return -1;
      }
      open := open[fd := open[fd].(offset := offset)];
      position := offset;
    }

    method SeekToEnd(fd: int) returns (position: int)
      requires fd in open && open[fd].path in files
      modifies this`open, this`failures
      ensures failures >= old(failures)
      ensures position < 0 ==> open == old(open) && failures > old(failures)
      ensures position >= 0 ==>
                && position == |files[old(open)[fd].path]|
                && open == old(open)[fd := old(open)[fd].(offset := position)]
    {
      var failed := Fails();
      if failed {
        return -1;
      }
      var size := |files[open[fd].path]|;
      open := open[fd := open[fd].(offset := size)];
      position := size;
    }

    /** Reads as many of `count` bytes as the file holds from the offset on. */
    method Read(fd: int, mem: array<Byte>, address: nat, count: nat) returns (result: int)
      requires fd in open && open[fd].canRead && open[fd].path in files
      requires address + count <= mem.Length
      modifies this`open, this`failures, mem
      ensures failures >= old(failures)
      ensures result < 0 ==> open == old(open) && mem[..] == old(mem[..]) && failures > old(failures)
      ensures result >= 0 ==>
                var h := old(open)[fd];
                && result == Available(files[h.path], h.offset, count)
                && open == old(open)[fd := h.(offset := h.offset + result)]
                && mem[..] == if result == 0 then old(mem[..])
                              else Store(old(mem[..]), address, files[h.path][h.offset..h.offset + result])
    {
      var failed := Fails();
      if failed {
        return -1;
      }
      var h := open[fd];
      var content := files[h.path];
      var n := Available(content, h.offset, count);
      forall k | 0 <= k < n {
        mem[address + k] := content[h.offset + k];
      }
      open := open[fd := h.(offset := h.offset + n)];
      result := n;
    }

    /** Writes all `count` bytes, or fewer when it runs out of space. */
    method Write(fd: int, mem: array<Byte>, address: nat, count: nat) returns (result: int)
      requires fd in open && open[fd].canWrite && open[fd].path in files
      requires address + count <= mem.Length && count > 0
      modifies this
      ensures failures >= old(failures)
      ensures result < 0 ==> files == old(files) && open == old(open) && failures > old(failures)
      ensures result >= 0 ==>
                var h := old(open)[fd];
                && 0 < result <= count && (result < count ==> failures > old(failures))
                && files == old(files)[h.path :=
                     Overwrite(old(files)[h.path], h.offset, mem[address..address + result])]
                && open == old(open)[fd := h.(offset := h.offset + result)]
    {
      result := *;
      if result <= 0 {
        failures := failures + 1;
        return -1;
      }
      if result < count {
        failures := failures + 1;
      } else {
        result := count;
      }
      var h := open[fd];
      files := files[h.path := Overwrite(files[h.path], h.offset, mem[address..address + result])];
      open := open[fd := h.(offset := h.offset + result)];
    }

    /** Copies without overwriting; a failing copy may leave part of the target behind. */
    method CopyFile(from: Path, to: Path) returns (ok: bool)
      requires from in files
      modifies this`files, this`failures
      ensures failures >= old(failures)
      ensures to in old(files) ==> !ok && files == old(files)
      ensures to !in old(files) ==>
                && (ok ==> files == old(files)[to := old(files)[from]])
                && (!ok ==> failures > old(failures)
                            && (files == old(files) || (to in files && files == old(files)[to := files[to]])))
    {
      if to in files {
        return false;
      }
      var failed := Fails();
      if failed {
        var part: int := *;
        if 0 <= part <= |files[from]| {
          files := files[to := files[from][..part]];
        }
        return false;
      }
      files := files[to := files[from]];
      ok := true;
    }

    /** Unlinks the file. A descriptor still open on it keeps its path but no longer finds a file there. */
    method Remove(path: Path)
      modifies this`files
      ensures files == old(files) - {path}
    {
      files := files - {path};
    }
  }
}
