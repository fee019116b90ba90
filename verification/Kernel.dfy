/** The daemon's view of the kernel's routing table: adding a route succeeds only
    if it is absent and the kernel grants it, deleting succeeds exactly if it is
    present, and a failed call changes nothing.
 */
module Kernels {
  import opened Routes

  class Kernel {
    var routes: set<KernelKey>

    constructor ()
      ensures routes == {}
    {
      routes := {};
    }

    method Add(k: RouteKey, info: RouteInfo, grant: bool) returns (ret: int)
      modifies this
      ensures ret == if grant && KernelKeyOf(k, info) !in old(routes) then 0 else 1
      ensures routes == if ret == 0 then old(routes) + {KernelKeyOf(k, info)} else old(routes)
    {
      if !grant || KernelKeyOf(k, info) in routes {
        return 1;
      }
      routes := routes + {KernelKeyOf(k, info)};
      return 0;
    }

    method Delete(k: RouteKey, info: RouteInfo) returns (ret: int)
      modifies this
      ensures ret == if KernelKeyOf(k, info) in old(routes) then 0 else 1
      ensures routes == old(routes) - {KernelKeyOf(k, info)}
    {
      if KernelKeyOf(k, info) !in routes {
        return 1;
      }
      routes := routes - {KernelKeyOf(k, info)};
      return 0;
    }
  }
}
