/**
 * The standard performance-handler registry (StdHandlerRegistry.cpp): the
 * get-or-create table of event counters, and the small serialiser that
 * CollectObjectNames uses to gather object names on the root process. Each
 * process packs its names into one buffer of NUL-terminated strings, the
 * root lays the buffers side by side at prefix-sum displacements, and then
 * walks the gathered buffer name by name, adding every name it has not yet
 * seen to its statistics table.
 *
 * The MPI reductions and gathers are not modelled; the gathered buffer is a
 * parameter, and GatherPlacesEachBuffer states where each process's buffer
 * lands in it.
 */
module PerfRegistry {

  /** The C string terminator. */
  const NUL: char := '\0'

  /** A named event counter; the registry hands out shared references to it. */
  class EventCounter {
    const name: string

    constructor (name: string)
      ensures this.name == name
    {
      this.name := name;
    }
  }

  class StdHandlerRegistry {
    var allEventCounters: map<string, EventCounter>

    constructor ()
      ensures allEventCounters == map[]
    {
      allEventCounters := map[];
    }

    /**
     * getEventCounter: the counter already registered under the name, or a
     * new counter with that name, registered before it is returned. Either
     * way the table afterwards maps the name to the returned counter, so a
     * second call with the same name returns the same object.
     */
    method GetEventCounter(name: string) returns (ret: EventCounter)
      modifies this`allEventCounters
      ensures name in allEventCounters && allEventCounters[name] == ret
      ensures name in old(allEventCounters) ==> ret == old(allEventCounters)[name] && allEventCounters == old(allEventCounters)
      ensures name !in old(allEventCounters) ==>
                fresh(ret) && ret.name == name && allEventCounters == old(allEventCounters)[name := ret]
    {
      if name in allEventCounters {
        ret := allEventCounters[name];
      } else {
        ret := new EventCounter(name);
        allEventCounters := allEventCounters[name := ret];
      }
    }
  }

  // ---------------------------------------------------------------------------
  // Packing

  /** The name holds no NUL character, so it is a proper C string. */
  predicate CString(name: string) {
    forall j :: 0 <= j < |name| ==> name[j] != NUL
  }

  /** Every name is a proper C string. */
  predicate NulFree(names: seq<string>) {
    forall k :: 0 <= k < |names| ==> CString(names[k])
  }

  /** The space the names need: each name plus its NUL terminator. */
  function PackedSize(names: seq<string>): nat {
    if names == [] then 0 else |names[0]| + 1 + PackedSize(names[1..])
  }

  /** The packed buffer: every name followed by a NUL, in order. */
  function Packed(names: seq<string>): seq<char> {
    if names == [] then [] else names[0] + [NUL] + Packed(names[1..])
  }

  /** The packed buffer is exactly nBytes long. */
  lemma {:induction false} PackedLength(names: seq<string>)
    ensures |Packed(names)| == PackedSize(names)
    decreases |names|
  {
    if names != [] {
      PackedLength(names[1..]);
    }
  }

  /** Packing two lists one after the other packs their concatenation. */
  lemma {:induction false} PackedSplit(a: seq<string>, b: seq<string>)
    ensures Packed(a + b) == Packed(a) + Packed(b)
    ensures PackedSize(a + b) == PackedSize(a) + PackedSize(b)
    decreases |a|
  {
    if a == [] {
      assert a + b == b;
    } else {
      assert (a + b)[0] == a[0];
      assert (a + b)[1..] == a[1..] + b;
      PackedSplit(a[1..], b);
      assert a[0] + [NUL] + (Packed(a[1..]) + Packed(b)) == (a[0] + [NUL] + Packed(a[1..])) + Packed(b);
    }
  }

  /** The first loop of CollectObjectNames: nBytes, the sum of the name lengths plus one each. */
  method PackedSizeOf(myNames: seq<string>) returns (nBytes: nat)
    ensures nBytes == PackedSize(myNames)
  {
    nBytes := 0;
    var k := 0;
    while k < |myNames|
      invariant 0 <= k <= |myNames|
      invariant nBytes == PackedSize(myNames[..k])
    {
      PrefixStep(myNames, k);
      nBytes := nBytes + |myNames[k]| + 1;
      k := k + 1;
    }
    assert myNames[..k] == myNames;
  }

  /** strcpy of a NUL-free name and its terminator to buf[at..]; the rest of the buffer is untouched. */
  method CopyName(buf: array<char>, at: nat, name: string)
    requires at + |name| + 1 <= buf.Length
    requires CString(name)
    modifies buf
    ensures buf[..at] == old(buf[..at])
    ensures buf[at..at + |name| + 1] == name + [NUL]
    ensures buf[at + |name| + 1..] == old(buf[at + |name| + 1..])
  {
    var j := 0;
    while j < |name|
      invariant 0 <= j <= |name|
      invariant forall q :: 0 <= q < at || at + j <= q < buf.Length ==> buf[q] == old(buf[q])
      invariant forall q :: 0 <= q < j ==> buf[at + q] == name[q]
    {
      buf[at + j] := name[j];
      j := j + 1;
    }
    buf[at + |name|] := NUL;
  }

  /**
   * The marshalling loop of CollectObjectNames: the names are copied one
   * after another, each with its NUL, and the write position ends exactly
   * at the end of the nBytes-long buffer.
   */
  method PackNames(myNames: seq<string>) returns (myNamesBuf: array<char>)
    requires NulFree(myNames)
    ensures myNamesBuf.Length == PackedSize(myNames)
    ensures myNamesBuf[..] == Packed(myNames)
  {
    var nBytes := PackedSizeOf(myNames);
    myNamesBuf := new char[nBytes];
    var pName := 0;
    var k := 0;
    while k < |myNames|
      invariant 0 <= k <= |myNames|
      invariant pName == PackedSize(myNames[..k]) <= nBytes
      invariant myNamesBuf.Length == nBytes
      invariant myNamesBuf[..pName] == Packed(myNames[..k])
    {
      var name := myNames[k];
      PrefixStep(myNames, k);
      CopyName(myNamesBuf, pName, name);
      assert myNamesBuf[..pName + |name| + 1] == myNamesBuf[..pName] + myNamesBuf[pName..pName + |name| + 1];
      pName := pName + |name| + 1;
      k := k + 1;
    }
    assert myNames[..k] == myNames;
    assert pName == nBytes;
  }

  /** Packing one more name: its size and its bytes come after those of the names before it. */
  lemma PrefixStep(names: seq<string>, k: nat)
    requires k < |names|
    ensures PackedSize(names[..k + 1]) == PackedSize(names[..k]) + |names[k]| + 1 <= PackedSize(names)
    ensures Packed(names[..k + 1]) == Packed(names[..k]) + names[k] + [NUL]
  {
    assert names[..k + 1] == names[..k] + [names[k]];
    PackedSplit(names[..k], [names[k]]);
    assert Packed([names[k]]) == names[k] + [NUL] + Packed([]);
    PackedSplit(names[..k + 1], names[k + 1..]);
    assert names[..k + 1] + names[k + 1..] == names;
  }

  // ---------------------------------------------------------------------------
  // Displacements

  /** Where buffer i starts once the buffers of the counts are laid side by side. */
  function Offset(counts: seq<int>, i: nat): int
    requires i <= |counts|
  {
    if i == 0 then 0 else Offset(counts, i - 1) + counts[i - 1]
  }

  /** The root's displacement loop: allNameDispls[0] = 0, then each one the previous plus its count. */
  method ComputeDisplacements(allNameCounts: array<int>, allNameDispls: array<int>)
    requires allNameCounts.Length == allNameDispls.Length > 0
    requires allNameCounts != allNameDispls
    modifies allNameDispls
    ensures forall i :: 0 <= i < allNameDispls.Length ==> allNameDispls[i] == Offset(allNameCounts[..], i)
  {
    allNameDispls[0] := 0;
    var i := 1;
    while i < allNameDispls.Length
      invariant 1 <= i <= allNameDispls.Length
      invariant forall q :: 0 <= q < i ==> allNameDispls[q] == Offset(allNameCounts[..], q)
    {
      allNameDispls[i] := allNameDispls[i - 1] + allNameCounts[i - 1];
      i := i + 1;
    }
  }

  /** The buffers laid side by side, as the gather leaves them on the root. */
  function Concat(bufs: seq<seq<char>>): seq<char> {
    if bufs == [] then [] else Concat(bufs[..|bufs| - 1]) + bufs[|bufs| - 1]
  }

  /** An offset depends only on the counts before it. */
  lemma {:induction false} OffsetPrefix(counts: seq<int>, n: nat, i: nat)
    requires i <= n <= |counts|
    ensures Offset(counts[..n], i) == Offset(counts, i)
    decreases i
  {
    if i > 0 {
      OffsetPrefix(counts, n, i - 1);
    }
  }

  /** Laying one more buffer down: the buffers before it, then it. */
  lemma ConcatSnoc(bufs: seq<seq<char>>)
    requires bufs != []
    ensures Concat(bufs) == Concat(bufs[..|bufs| - 1]) + bufs[|bufs| - 1]
  {
  }

  /** The gathered buffer is as long as the total of the counts. */
  lemma {:induction false} ConcatLength(bufs: seq<seq<char>>, counts: seq<int>)
    requires |counts| == |bufs|
    requires forall k :: 0 <= k < |bufs| ==> counts[k] == |bufs[k]|
    ensures |Concat(bufs)| == Offset(counts, |counts|)
    decreases |bufs|
  {
    if bufs != [] {
      var n := |bufs| - 1;
      ConcatSnoc(bufs);
      ConcatLength(bufs[..n], counts[..n]);
      OffsetPrefix(counts, n, n);
    }
  }

  /** A slice inside the first part of a + b is a slice of a. */
  lemma SliceOfFront(a: seq<char>, b: seq<char>, lo: int, hi: int)
    requires 0 <= lo <= hi <= |a|
    ensures (a + b)[lo..hi] == a[lo..hi]
  {
  }

  /** The second part of a + b. */
  lemma SliceOfBack(a: seq<char>, b: seq<char>)
    ensures (a + b)[|a|..|a| + |b|] == b
  {
  }

  /** The displacement of buffer i places it exactly at its own slot of the gathered buffer. */
  lemma {:induction false} GatherPlacesBuffer(bufs: seq<seq<char>>, counts: seq<int>, i: nat)
    requires |counts| == |bufs| && i < |bufs|
    requires forall k :: 0 <= k < |bufs| ==> counts[k] == |bufs[k]|
    ensures 0 <= Offset(counts, i) && Offset(counts, i) + counts[i] <= |Concat(bufs)|
    ensures Concat(bufs)[Offset(counts, i)..Offset(counts, i) + counts[i]] == bufs[i]
    decreases |bufs|
  {
    var n := |bufs| - 1;
    var init := bufs[..n];
    var initCounts := counts[..n];
    ConcatSnoc(bufs);
    ConcatLength(init, initCounts);
    OffsetPrefix(counts, n, n);
    OffsetPrefix(counts, n, i);
    if i < n {
      GatherPlacesBuffer(init, initCounts, i);
      SliceOfFront(Concat(init), bufs[n], Offset(counts, i), Offset(counts, i) + counts[i]);
    } else {
      SliceOfBack(Concat(init), bufs[n]);
    }
  }

  /**
   * With the counts the buffer lengths, the displacements place every
   * process's buffer exactly at its own slot of the gathered buffer, whose
   * length is the total of the counts.
   */
  lemma GatherPlacesEachBuffer(bufs: seq<seq<char>>, counts: seq<int>)
    requires |counts| == |bufs|
    requires forall k :: 0 <= k < |bufs| ==> counts[k] == |bufs[k]|
    ensures |Concat(bufs)| == Offset(counts, |counts|)
    ensures forall i :: 0 <= i < |bufs| ==>
              0 <= Offset(counts, i) && Offset(counts, i) + counts[i] <= |Concat(bufs)|
              && Concat(bufs)[Offset(counts, i)..Offset(counts, i) + counts[i]] == bufs[i]
  {
    ConcatLength(bufs, counts);
    forall i | 0 <= i < |bufs|
      ensures 0 <= Offset(counts, i) && Offset(counts, i) + counts[i] <= |Concat(bufs)|
      ensures Concat(bufs)[Offset(counts, i)..Offset(counts, i) + counts[i]] == bufs[i]
    {
      GatherPlacesBuffer(bufs, counts, i);
    }
  }

  // ---------------------------------------------------------------------------
  // Unpacking

  /** The gathered buffer is empty or ends with a terminator, so every strlen stays inside it. */
  predicate Terminated(s: seq<char>) {
    s == [] || s[|s| - 1] == NUL
  }

  /** strlen from position p: the position of the first NUL at or after p (|s| when there is none). */
  function NameEnd(s: seq<char>, p: nat): (e: nat)
    requires p <= |s|
    ensures p <= e <= |s|
    ensures e < |s| ==> s[e] == NUL
    ensures Terminated(s) && p < |s| ==> e < |s|
    decreases |s| - p
  {
    if p == |s| || s[p] == NUL then p else NameEnd(s, p + 1)
  }

  /** A NUL with none before it, from p on, is where the name starting at p ends. */
  lemma {:induction false} NameEndAt(s: seq<char>, p: nat, q: nat)
    requires p <= q < |s| && s[q] == NUL
    requires forall j :: p <= j < q ==> s[j] != NUL
    ensures NameEnd(s, p) == q
    decreases q - p
  {
    if p < q {
      NameEndAt(s, p + 1, q);
    }
  }

  /** The names a terminated buffer holds from position p on, read one C string at a time. */
  function NamesFrom(s: seq<char>, p: nat): seq<string>
    requires p <= |s| && Terminated(s)
    decreases |s| - p
  {
    if p == |s| then []
    else [s[p..NameEnd(s, p)]] + NamesFrom(s, NameEnd(s, p) + 1)
  }

  /** The characters of a NUL-free name stored at s[p..] are not NUL. */
  lemma NoNulInside(s: seq<char>, p: nat, name: string)
    requires p + |name| <= |s| && s[p..p + |name|] == name
    requires CString(name)
    ensures forall j :: p <= j < p + |name| ==> s[j] != NUL
  {
    forall j | p <= j < p + |name|
      ensures s[j] != NUL
    {
      assert s[j] == s[p..p + |name|][j - p];
    }
  }

  /** The pieces of s[p..] when it holds a name, its NUL and a tail. */
  lemma PiecesAt(s: seq<char>, p: nat, name: string, tail: seq<char>)
    requires p <= |s| && s[p..] == name + [NUL] + tail
    ensures p + |name| < |s| && s[p + |name|] == NUL
    ensures s[p..p + |name|] == name
    ensures s[p + |name| + 1..] == tail
  {
    var t := s[p..];
    assert s[p + |name|] == t[|name|];
    assert s[p..p + |name|] == t[..|name|];
    assert s[p + |name| + 1..] == t[|name| + 1..];
  }

  /**
   * The names are stored one after the other from position p to the end
   * of s, each followed by a NUL.
   */
  predicate HoldsAt(s: seq<char>, p: nat, names: seq<string>)
    decreases names
  {
    if names == [] then p == |s|
    else
      && p + |names[0]| < |s|
      && s[p..p + |names[0]|] == names[0]
      && s[p + |names[0]|] == NUL
      && HoldsAt(s, p + |names[0]| + 1, names[1..])
  }

  /** A buffer whose tail from p is the packed names holds them from p. */
  lemma {:induction false} PackedHolds(s: seq<char>, p: nat, names: seq<string>)
    requires p <= |s| && s[p..] == Packed(names)
    ensures HoldsAt(s, p, names)
    decreases |names|
  {
    if names == [] {
      assert |s[p..]| == 0;
    } else {
      PiecesAt(s, p, names[0], Packed(names[1..]));
      PackedHolds(s, p + |names[0]| + 1, names[1..]);
    }
  }

  /** The names after the first are NUL-free too, and so is the first. */
  lemma NulFreeCons(names: seq<string>)
    requires names != [] && NulFree(names)
    ensures NulFree(names[1..])
    ensures CString(names[0])
  {
    var rest := names[1..];
    forall k | 0 <= k < |rest|
      ensures CString(rest[k])
    {
      assert rest[k] == names[k + 1];
    }
  }

  /** Reading from p: the C string at p, then the names after its NUL. */
  lemma NamesFromStep(s: seq<char>, p: nat)
    requires p < |s| && Terminated(s)
    ensures NamesFrom(s, p) == [s[p..NameEnd(s, p)]] + NamesFrom(s, NameEnd(s, p) + 1)
  {
  }

  /** The names read from p: the name that ends at the first NUL, then the names read after it. */
  lemma NamesFromCons(s: seq<char>, p: nat, name: string)
    requires p < |s| && Terminated(s)
    requires NameEnd(s, p) == p + |name| && s[p..p + |name|] == name
    ensures NamesFrom(s, p) == [name] + NamesFrom(s, p + |name| + 1)
  {
    NamesFromStep(s, p);
  }

  /** A packed buffer ends with a terminator. */
  lemma {:induction false} PackedTerminated(names: seq<string>)
    ensures Terminated(Packed(names))
    decreases |names|
  {
    if names != [] {
      PackedTerminated(names[1..]);
    }
  }

  /** Reading a buffer that holds NUL-free names from p on gives them back, in order. */
  lemma {:induction false} UnpackFrom(s: seq<char>, p: nat, names: seq<string>)
    requires p <= |s| && Terminated(s) && HoldsAt(s, p, names) && NulFree(names)
    ensures NamesFrom(s, p) == names
    decreases |names|
  {
    if names != [] {
      UnpackStep(s, p, names);
      UnpackFrom(s, p + |names[0]| + 1, names[1..]);
      assert names == [names[0]] + names[1..];
    }
  }

  /** One name read back: it ends at its NUL, and the rest of the names follow it. */
  lemma UnpackStep(s: seq<char>, p: nat, names: seq<string>)
    requires p <= |s| && Terminated(s) && HoldsAt(s, p, names) && NulFree(names) && names != []
    ensures p + |names[0]| + 1 <= |s|
    ensures HoldsAt(s, p + |names[0]| + 1, names[1..]) && NulFree(names[1..])
    ensures NamesFrom(s, p) == [names[0]] + NamesFrom(s, p + |names[0]| + 1)
  {
    NulFreeCons(names);
    NoNulInside(s, p, names[0]);
    NameEndAt(s, p, p + |names[0]|);
    NamesFromCons(s, p, names[0]);
  }

  /** Unpacking a packed buffer gives back the names, in order. */
  lemma UnpackPack(names: seq<string>)
    requires NulFree(names)
    ensures Terminated(Packed(names))
    ensures NamesFrom(Packed(names), 0) == names
  {
    PackedTerminated(names);
    var s := Packed(names);
    assert s[0..] == s;
    PackedHolds(s, 0, names);
    UnpackFrom(s, 0, names);
  }

  /** The name lists of all processes, one after the other in rank order. */
  function Flatten(lists: seq<seq<string>>): seq<string> {
    if lists == [] then [] else Flatten(lists[..|lists| - 1]) + lists[|lists| - 1]
  }

  /** Laying the packed buffers of the processes side by side packs all their names in rank order. */
  lemma {:induction false} GatheredPacked(bufs: seq<seq<char>>, lists: seq<seq<string>>)
    requires |bufs| == |lists|
    requires forall i :: 0 <= i < |bufs| ==> bufs[i] == Packed(lists[i])
    ensures Concat(bufs) == Packed(Flatten(lists))
    decreases |bufs|
  {
    if bufs != [] {
      var n := |bufs| - 1;
      GatheredPacked(bufs[..n], lists[..n]);
      PackedSplit(Flatten(lists[..n]), lists[n]);
    }
  }

  /** If every process's names are NUL-free, so are all of them together. */
  lemma {:induction false} FlattenNulFree(lists: seq<seq<string>>)
    requires forall i :: 0 <= i < |lists| ==> NulFree(lists[i])
    ensures NulFree(Flatten(lists))
    decreases |lists|
  {
    if lists != [] {
      var n := |lists| - 1;
      FlattenNulFree(lists[..n]);
      var front, back := Flatten(lists[..n]), lists[n];
      forall k | 0 <= k < |front + back|
        ensures CString((front + back)[k])
      {
        if k < |front| {
          assert (front + back)[k] == front[k];
        } else {
          assert (front + back)[k] == back[k - |front|];
        }
      }
    }
  }

  /** End to end: reading the root's gathered buffer name by name gives every process's names, in rank order. */
  lemma GatherUnpack(bufs: seq<seq<char>>, lists: seq<seq<string>>)
    requires |bufs| == |lists|
    requires forall i :: 0 <= i < |bufs| ==> bufs[i] == Packed(lists[i]) && NulFree(lists[i])
    ensures Terminated(Concat(bufs))
    ensures NamesFrom(Concat(bufs), 0) == Flatten(lists)
  {
    GatheredPacked(bufs, lists);
    FlattenNulFree(lists);
    UnpackPack(Flatten(lists));
  }

  /** strlen(pName) on the gathered buffer, starting at position at. */
  method StrLen(allNames: array<char>, at: nat) returns (len: nat)
    requires at < allNames.Length
    requires Terminated(allNames[..])
    ensures at + len == NameEnd(allNames[..], at)
  {
    len := 0;
    while allNames[at + len] != NUL
      invariant at + len < allNames.Length
      invariant forall q :: at <= q < at + len ==> allNames[q] != NUL
      decreases allNames.Length - at - len
    {
      len := len + 1;
    }
    NameEndAt(allNames[..], at, at + len);
  }

  /** Recording the first of the remaining names keeps the walk's key and value invariants. */
  lemma RecordStep<S>(before: map<string, S>, after: map<string, S>, name: string,
                      names: seq<string>, rest: seq<string>, newStats: string -> S)
    requires names == [name] + rest
    requires after == if name in before then before else before[name := newStats(name)]
    ensures forall key :: key in after || key in rest <==> key in before || key in names
    ensures forall key :: key in before ==> key in after && after[key] == before[key]
    ensures forall key :: key in after && key !in before ==> after[key] == newStats(key)
  {
  }

  /** One name read by the walk, as RecordStep needs it. */
  lemma CollectStep<S>(s: seq<char>, p: nat, next: nat, name: string, unread: seq<string>, rest: seq<string>,
                       before: map<string, S>, after: map<string, S>, newStats: string -> S)
    requires p < |s| && Terminated(s) && next == p + |name| + 1
    requires NameEnd(s, p) == p + |name| && name == s[p..p + |name|]
    requires unread == NamesFrom(s, p) && rest == NamesFrom(s, next)
    requires after == if name in before then before else before[name := newStats(name)]
    ensures forall key :: key in after || key in rest <==> key in before || key in unread
    ensures forall key :: key in before ==> key in after && after[key] == before[key]
    ensures forall key :: key in after && key !in before ==> after[key] == newStats(key)
  {
    NamesFromStep(s, p);
    RecordStep(before, after, name, unread, rest, newStats);
  }

  /**
   * The root's walk over the gathered buffer: every name not yet in the
   * statistics is added with fresh statistics (newStats stands for the
   * PerfObjStatistics constructor), and the walk ends exactly at
   * totalNumBytes. Afterwards the keys are the old keys and the gathered
   * names, and the entries already present are untouched.
   */
  method CollectNames<S>(allNames: array<char>, totalNumBytes: nat, stats: map<string, S>, newStats: string -> S)
    returns (r: map<string, S>)
    requires allNames.Length == totalNumBytes
    requires Terminated(allNames[..])
    ensures forall key :: key in r <==> key in stats || key in NamesFrom(allNames[..], 0)
    ensures forall key :: key in stats ==> r[key] == stats[key]
    ensures forall key :: key in r && key !in stats ==> r[key] == newStats(key)
  {
    ghost var s := allNames[..];
    ghost var all := NamesFrom(s, 0);
    ghost var unread := all;
    r := stats;
    var pName := 0;
    while pName < totalNumBytes
      invariant pName <= totalNumBytes
      invariant unread == NamesFrom(s, pName)
      invariant forall key :: key in r || key in unread <==> key in stats || key in all
      invariant forall key :: key in stats ==> key in r && r[key] == stats[key]
      invariant forall key :: key in r && key !in stats ==> r[key] == newStats(key)
      decreases totalNumBytes - pName
    {
      var len := StrLen(allNames, pName);
      var name := allNames[pName..pName + len];
      assert name == s[pName..pName + len];
      ghost var before := r;
      if name !in r {
        r := r[name := newStats(name)];
      }
      var next := pName + len + 1;
      ghost var rest := NamesFrom(s, next);
      CollectStep(s, pName, next, name, unread, rest, before, r, newStats);
      pName := next;
      unread := rest;
    }
    assert pName == totalNumBytes;
  }
}
