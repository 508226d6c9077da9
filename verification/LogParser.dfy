/** The conversion of an allocation log into a trace: pointers are replaced by ids, of which the
    lowest free one is always taken. */
module LogParsers {
  import opened Batches
  import opened Options
  import opened Traces
  import opened TraceRewrites

  // one line of the log; the pointer 0 is NULL, and a line that no pattern matches is Unknown
  datatype Call =
    | FreeCall(ptr: nat)
    | MallocCall(size: nat, ptr: nat)
    | CallocCall(nmemb: nat, size: nat, ptr: nat)
    | ReallocCall(input: nat, size: nat, ptr: nat)
    | Unknown

  datatype Entry = Entry(pid: int, call: Call)

  // the pointer that an entry releases
  function Gone(e: Entry): Option<nat> {
    match e.call
    case FreeCall(ptr) => if ptr == 0 then None else Some(ptr)
    case ReallocCall(input, _, _) => if input == 0 then None else Some(input)
    case _ => None
  }

  // ... and the one it obtains
  function Came(e: Entry): Option<nat> {
    match e.call
    case MallocCall(_, ptr) => Some(ptr)
    case CallocCall(_, _, ptr) => Some(ptr)
    case ReallocCall(_, _, ptr) => Some(ptr)
    case _ => None
  }

  // ids of the pointers in use, ids that were used before, the next new id, the largest number
  // of pointers in use so far, the process that is followed, and the trace
  datatype Parse = Parse(idMap: map<nat, nat>, available: set<nat>, nextId: nat, most: nat, pid: Option<int>, lines: seq<Line>)

  const START := Parse(map[], {}, 0, 0, None, [])

  // find_and_erase_id
  function Drop(st: Parse, ptr: nat): Option<(Parse, nat)> {
    if ptr !in st.idMap then None
    else Some((st.(idMap := st.idMap - {ptr}, available := st.available + {st.idMap[ptr]}), st.idMap[ptr]))
  }

  // get_next_id
  ghost function Give(st: Parse, ptr: nat): Option<(Parse, nat)> {
    if ptr in st.idMap then None
    else if st.available == {} then Some((st.(idMap := st.idMap[ptr := st.nextId], nextId := st.nextId + 1), st.nextId))
    else
      var id := Min(st.available);
      Some((st.(idMap := st.idMap[ptr := id], available := st.available - {id}), id))
  }

  // the line is kept if it is from the first process of the log
  function Emit(st: Parse, pid: int, l: Line): Parse {
    if st.pid.Some? && st.pid.value != pid then st
    else st.(pid := Some(pid), lines := st.lines + [l], most := if st.most < |st.idMap| then |st.idMap| else st.most)
  }

  ghost function ParseEntry(st: Parse, e: Entry): Option<Parse> {
    match e.call
    case FreeCall(ptr) =>
      if ptr == 0 then Some(Emit(st, e.pid, Free(None)))
      else
        var d := Drop(st, ptr);
        if d == None then None else Some(Emit(d.value.0, e.pid, Free(Some(d.value.1))))
    case MallocCall(size, ptr) =>
      var g := Give(st, ptr);
      if g == None then None else Some(Emit(g.value.0, e.pid, Malloc(Some(g.value.1), size)))
    case CallocCall(nmemb, size, ptr) =>
      var g := Give(st, ptr);
      if g == None then None else Some(Emit(g.value.0, e.pid, Calloc(Some(g.value.1), nmemb, size)))
    case ReallocCall(input, size, ptr) =>
      var d := if input == 0 then Some((st, 0)) else Drop(st, input);
      if d == None then None
      else
        var g := Give(d.value.0, ptr);
        if g == None then None
        else Some(Emit(g.value.0, e.pid, Realloc(if input == 0 then None else Some(d.value.1), g.value.1, size)))
    case Unknown => Some(st)
  }

  // the whole log, up to the limit on the number of operations
  ghost function ParseLog(log: seq<Entry>, maxOps: nat, st: Parse, i: nat): Option<Parse>
    requires i <= |log|
    decreases |log| - i
  {
    if i == |log| || i + |st.idMap| >= maxOps then Some(st)
    else
      var next := ParseEntry(st, log[i]);
      if next == None then None else ParseLog(log, maxOps, next.value, i + 1)
  }

  // frees of what is left, in the order in which the map happens to list its pointers
  ghost predicate FinalFrees(idMap: map<nat, nat>, frees: seq<Line>) {
    exists ptrs: seq<nat> :: Lists(idMap, ptrs, frees)
  }

  ghost predicate Lists(idMap: map<nat, nat>, ptrs: seq<nat>, frees: seq<Line>) {
    && |ptrs| == |frees|
    && (forall i :: 0 <= i < |ptrs| ==> ptrs[i] in idMap && frees[i] == Free(Some(idMap[ptrs[i]])))
    && (forall i, j :: 0 <= i < j < |ptrs| ==> ptrs[i] != ptrs[j])
    && (forall ptr :: ptr in idMap ==> ptr in ptrs)
  }
}
