/** Choosing a local port that no registered project has (minit/ports.py). */
module PortRegistry {
  import opened Results

  datatype PortError = PreferredOutOfRange | ScanNotPositive | NoFreePort

  /** An entry of registry.json; a port that is no integer is None. */
  datatype Entry = Entry(projectDir: string, port: Option<int>)

  predicate IsPort(p: int) {
    1 <= p <= 65535
  }

  predicate Reserves(e: Entry, excluded: string, p: int) {
    e.projectDir != excluded && e.port == Some(p) && IsPort(p)
  }

  ghost predicate Reserved(apps: map<string, Entry>, excluded: string, p: int) {
    exists id :: id in apps && Reserves(apps[id], excluded, p)
  }

  /** reserved_local_ports. */
  method ReservedLocalPorts(apps: map<string, Entry>, excluded: string) returns (reserved: set<int>)
    ensures forall p :: p in reserved <==> Reserved(apps, excluded, p)
    ensures forall p :: p in reserved <==>
              1 <= p <= 65535 && exists id :: id in apps && apps[id].projectDir != excluded && apps[id].port == Some(p)
  {
    reserved := {};
    var left := apps.Keys;
    while left != {}
      invariant left <= apps.Keys
      invariant forall p :: p in reserved <==> exists id :: id in apps && id !in left && Reserves(apps[id], excluded, p)
      decreases |left|
    {
      var id :| id in left;
      left := left - {id};
      if apps[id].projectDir != excluded && apps[id].port.Some? && IsPort(apps[id].port.value) {
        assert Reserves(apps[id], excluded, apps[id].port.value);
        reserved := reserved + {apps[id].port.value};
      }
    }
  }

  function Upper(preferred: int, scan: int): int {
    if preferred + scan - 1 <= 65535 then preferred + scan - 1 else 65535
  }

  ghost predicate Free(apps: map<string, Entry>, dir: string, bindable: set<int>, p: int) {
    !Reserved(apps, dir, p) && p in bindable
  }

  /** choose_available_port: the least port of the window that no other project
      reserves and that can be bound, and a failure exactly when there is none. */
  method ChooseAvailablePort(apps: map<string, Entry>, dir: string, preferred: int, scan: int, bindable: set<int>)
    returns (r: Result<int, PortError>)
    ensures r == Err(PreferredOutOfRange) <==> !IsPort(preferred)
    ensures r == Err(ScanNotPositive) <==> IsPort(preferred) && scan < 1
    ensures r.Ok? ==> preferred <= r.value <= Upper(preferred, scan) && Free(apps, dir, bindable, r.value)
    ensures r.Ok? ==> forall p | preferred <= p < r.value :: !Free(apps, dir, bindable, p)
    ensures r == Err(NoFreePort) ==>
              forall p | preferred <= p <= Upper(preferred, scan) :: !Free(apps, dir, bindable, p)
    ensures r == Choice(apps, dir, preferred, scan, bindable)
    ensures var upper := if preferred + scan - 1 < 65535 then preferred + scan - 1 else 65535;
            && (r.Ok? ==> preferred <= r.value <= upper)
            && (r == Err(NoFreePort) <==>
                 1 <= preferred <= 65535 && scan >= 1
                 && forall p | preferred <= p <= upper :: !Free(apps, dir, bindable, p))
  {
    LeastFreeIsLeast(apps, dir, bindable, preferred, Upper(preferred, scan));
    if !IsPort(preferred) { return Err(PreferredOutOfRange); }
    if scan < 1 { return Err(ScanNotPositive); }
    var reserved := ReservedLocalPorts(apps, dir);
    for port := preferred to Upper(preferred, scan) + 1
      invariant forall p | preferred <= p < port :: !Free(apps, dir, bindable, p)
    {
      if port !in reserved && port in bindable {
        assert Free(apps, dir, bindable, port);
        return Ok(port);
      }
    }
    return Err(NoFreePort);
  }

  /** The same choice as a function. */
  ghost function LeastFree(apps: map<string, Entry>, dir: string, bindable: set<int>, from: int, upper: int)
    : Option<int>
    decreases upper - from
  {
    if from > upper then None
    else if Free(apps, dir, bindable, from) then Some(from)
    else LeastFree(apps, dir, bindable, from + 1, upper)
  }

  ghost function Choice(apps: map<string, Entry>, dir: string, preferred: int, scan: int, bindable: set<int>)
    : Result<int, PortError>
  {
    if !IsPort(preferred) then Err(PreferredOutOfRange)
    else if scan < 1 then Err(ScanNotPositive)
    else match LeastFree(apps, dir, bindable, preferred, Upper(preferred, scan))
      case None => Err(NoFreePort)
      case Some(p) => Ok(p)
  }

  /** It is Some exactly of the least free port of the window. */
  lemma {:induction false} LeastFreeIsLeast(apps: map<string, Entry>, dir: string, bindable: set<int>, from: int,
                                            upper: int)
    ensures var r := LeastFree(apps, dir, bindable, from, upper);
            && (r.Some? ==> from <= r.value <= upper && Free(apps, dir, bindable, r.value))
            && forall p | from <= p <= upper && (r.Some? ==> p < r.value) :: !Free(apps, dir, bindable, p)
    decreases upper - from
  {
    hide Free;
    if from <= upper && !Free(apps, dir, bindable, from) { LeastFreeIsLeast(apps, dir, bindable, from + 1, upper); }
  }
}
