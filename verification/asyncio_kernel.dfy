// The part of the kernel asyncio02 relies on: named files of some size, open
// descriptors with an offset, and five calls whose answers the environment picks.
module AsyncIoKernel {
  import opened Arithmetic

  datatype OpenFlags = OpenFlags(create: bool, truncate: bool)

  datatype Descriptor = Descriptor(name: string, offset: nat)

  // The size a file has just after it was opened.
  function SizeWhenOpened(sizes: map<string, nat>, name: string, flag: OpenFlags): nat {
    if name in sizes && !flag.truncate then sizes[name] else 0
  }

  class Kernel {
    var sizes: map<string, nat>
    var fds: map<int, Descriptor>

    constructor ()
      ensures sizes == map[] && fds == map[]
    {
      sizes, fds := map[], map[];
    }

    // An answer of -1 is a failure; any other is an unused descriptor.
    method Open(name: string, flag: OpenFlags, answer: int) returns (fd: int)
      requires answer != -1 ==> answer !in fds && (name in sizes || flag.create)
      modifies this
      ensures fd == answer
      ensures fd == -1 ==> sizes == old(sizes) && fds == old(fds)
      ensures fd != -1 ==> sizes == old(sizes)[name := SizeWhenOpened(old(sizes), name, flag)]
      ensures fd != -1 ==> fds == old(fds)[fd := Descriptor(name, 0)]
    {
      fd := answer;
      if fd != -1 {
        sizes := sizes[name := SizeWhenOpened(sizes, name, flag)];
        fds := fds[fd := Descriptor(name, 0)];
      }
    }

    // Writes `answer` of the `count` bytes at the descriptor's offset, or fails.
    method Write(fd: int, count: nat, answer: int) returns (ret: int)
      requires fd in fds && fds[fd].name in sizes
      requires -1 <= answer <= count
      modifies this
      ensures ret == answer
      ensures ret == -1 ==> sizes == old(sizes) && fds == old(fds)
      ensures ret != -1 ==>
                var d := old(fds)[fd];
                && fds == old(fds)[fd := Descriptor(d.name, d.offset + ret)]
                && sizes == old(sizes)[d.name := Max(old(sizes)[d.name], d.offset + ret)]
    {
      ret := answer;
      if ret != -1 {
        var d := fds[fd];
        sizes := sizes[d.name := Max(sizes[d.name], d.offset + ret)];
        fds := fds[fd := Descriptor(d.name, d.offset + ret)];
      }
    }

    method Close(fd: int, succeeds: bool) returns (ret: int)
      requires fd in fds
      modifies this`fds
      ensures ret == if succeeds then 0 else -1
      ensures fds == if succeeds then old(fds) - {fd} else old(fds)
    {
      ret := -1;
      if succeeds {
        ret := 0;
        fds := fds - {fd};
      }
    }

    method Stat(name: string, succeeds: bool) returns (ret: int, size: nat)
      requires name in sizes
      ensures ret == if succeeds then 0 else -1
      ensures ret == 0 ==> size == sizes[name]
    {
      ret, size := if succeeds then 0 else -1, sizes[name];
    }

    method Unlink(name: string, succeeds: bool) returns (ret: int)
      requires name in sizes
      modifies this`sizes
      ensures ret == if succeeds then 0 else -1
      ensures sizes == if succeeds then old(sizes) - {name} else old(sizes)
    {
      ret := -1;
      if succeeds {
        ret := 0;
        sizes := sizes - {name};
      }
    }
  }
}
