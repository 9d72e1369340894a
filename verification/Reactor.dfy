/**
  * src/core/Reactor.cpp: the set of descriptors epoll watches. `epoll_ctl` failures are ignored there, so a
  * call that would fail changes nothing.
  */
module Reactor {
  import opened ClientConnection

  class Reactor {
    var watched: map<int, Mask>

    constructor ()
      ensures watched == map[]
    {
      watched := map[];
    }

    method AddFd(fd: int, mask: Mask)
      modifies this
      ensures watched == if fd in old(watched) then old(watched) else old(watched)[fd := mask]
    {
      if fd !in watched {
        watched := watched[fd := mask];
      }
    }

    method ModifyFd(fd: int, mask: Mask)
      modifies this
      ensures watched == if fd in old(watched) then old(watched)[fd := mask] else old(watched)
    {
      if fd in watched {
        watched := watched[fd := mask];
      }
    }

    /** Also what the kernel does when a watched descriptor is closed. */
    method RemoveFd(fd: int)
      modifies this
      ensures watched == old(watched) - {fd}
    {
      watched := watched - {fd};
    }
  }
}
