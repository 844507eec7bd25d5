/** The list of cross-linked files: creating them in batches, recording them for removal, and reading the record (system.c). */
module Uninstall {
  import opened Constants
  import opened Arithmetic
  import opened Bytes
  import opened Dirents

  const NAME_LENGTH := 66

  /** The name field of a FileAlias: a zero-terminated string in a field of fixed size. */
  type Name = seq<byte>

  ghost predicate AreNames(names: seq<Name>) {
    AllLen(names, NAME_LENGTH)
  }

  /** The aliases other than the file itself. */
  function Recorded(table: seq<Name>, path: seq<byte>): seq<Name> {
    if table == [] then [] else
    var last := table[|table| - 1];
    Recorded(table[..|table| - 1], path) + if CString(last) != path then [last] else []
  }

  /** The first alias that is the file itself. */
  function OwnIndex(table: seq<Name>, path: seq<byte>, from: nat): (k: nat)
    requires from <= |table|
    ensures from <= k <= |table| && (k < |table| ==> CString(table[k]) == path)
    ensures forall j :: from <= j < k ==> CString(table[j]) != path
    decreases |table| - from
  {
    if from == |table| || CString(table[from]) == path then from else OwnIndex(table, path, from + 1)
  }

  /** The aliases without the first one that is the file itself. */
  function OthersOf(table: seq<Name>, path: seq<byte>): seq<Name> {
    var k := OwnIndex(table, path, 0);
    table[..k] + if k < |table| then table[k + 1..] else []
  }

  lemma {:induction false} RecordedAppend(s: seq<Name>, t: seq<Name>, path: seq<byte>)
    ensures Recorded(s + t, path) == Recorded(s, path) + Recorded(t, path)
  {
    if t == [] {
      assert s + t == s;
    } else {
      assert (s + t)[..|s + t| - 1] == s + t[..|t| - 1];
      RecordedAppend(s, t[..|t| - 1], path);
    }
  }

  lemma {:induction false} RecordedAll(s: seq<Name>, path: seq<byte>)
    ensures |Recorded(s, path)| <= |s|
    ensures Recorded(s, path) == s <==> forall j :: 0 <= j < |s| ==> CString(s[j]) != path
    ensures |Recorded(s, path)| == |s| <==> Recorded(s, path) == s
  {
    if s != [] {
      var n := |s| - 1;
      RecordedAll(s[..n], path);
      assert s == s[..n] + [s[n]];
      assert Recorded(s, path) == s ==> Recorded(s, path)[..n] == s[..n];
    }
  }

  /** What is recorded is everything but the first listing of the file exactly if the file is listed at most once. */
  lemma RecordedIsOthersExactlyIfListedOnce(table: seq<Name>, path: seq<byte>)
    ensures Recorded(table, path) == OthersOf(table, path) <==>
            forall j :: OwnIndex(table, path, 0) < j < |table| ==> CString(table[j]) != path
  {
    hide Recorded;
    var k := OwnIndex(table, path, 0);
    var before, behind := table[..k], if k < |table| then table[k + 1..] else [];
    RecordedAround(table, path);
    RecordedAll(behind, path);
    assert OthersOf(table, path) == before + behind;
    assert |Recorded(table, path)| == |before| + |Recorded(behind, path)|;
    assert forall j :: k < j < |table| ==> table[j] == behind[j - k - 1];
    assert forall j :: 0 <= j < |behind| ==> behind[j] == table[j + k + 1];
  }

  lemma RecordedNext(table: seq<Name>, path: seq<byte>, i: nat)
    requires i < |table|
    ensures Recorded(table[..i + 1], path) == if CString(table[i]) != path then Recorded(table[..i], path) + [table[i]] else Recorded(table[..i], path)
  {
    assert table[..i + 1][..i] == table[..i];
  }

  lemma RecordedAround(table: seq<Name>, path: seq<byte>)
    ensures var k := OwnIndex(table, path, 0);
            Recorded(table, path) == table[..k] + Recorded(if k < |table| then table[k + 1..] else [], path)
  {
    hide Recorded, CString;
    var k := OwnIndex(table, path, 0);
    RecordedAll(table[..k], path);
    if k == |table| {
      NothingYet(path);
      assert table[..k] == table;
    } else {
      RecordedNext(table, path, k);
      assert table == table[..k + 1] + table[k + 1..];
      RecordedAppend(table[..k + 1], table[k + 1..], path);
    }
  }

  /** The numbers from `a` up to `b`. */
  function Range(a: nat, b: nat): (r: seq<nat>)
    requires a <= b
    ensures |r| == b - a && forall i :: 0 <= i < |r| ==> r[i] == a + i
  {
    seq(b - a, i => a + i)
  }

  /** How many of `count` aliases one request carries. */
  function Batch(count: nat): (n: nat)
    ensures n == count <= 8 || n == 8 < count
  {
    if count < MAX_RPC_FILE_ENTRIES then count else MAX_RPC_FILE_ENTRIES
  }

  /** What the card does: whether the `i`-th alias of the `call`-th request can be created. */
  type Successes = (nat, nat) -> bool

  /** The card gets to the `i`-th alias sent, which is as long as no name is empty, and creates it. */
  predicate Creates(table: seq<Name>, from: nat, call: nat, works: Successes, i: nat)
    requires from + i < |table|
  {
    works(call, i) && forall k :: from <= k <= from + i ==> CString(table[k]) != []
  }

  /** The aliases that one request creates of the first `n` it was sent, by their places in the table. */
  function Made(table: seq<Name>, from: nat, n: nat, call: nat, works: Successes): (ids: seq<nat>)
    requires from + n <= |table|
    ensures |ids| <= n && forall k :: 0 <= k < |ids| ==> from <= ids[k] < from + n
  {
    if n == 0 then [] else Made(table, from, n - 1, call, works) + if Creates(table, from, call, works, n - 1) then [from + n - 1] else []
  }

  /** A request on the card's side: it goes on after a failure, and answers with the number of aliases created. */
  method Request(table: seq<Name>, from: nat, count: nat, call: nat, works: Successes) returns (reply: nat, created: seq<nat>)
    requires from + count <= |table|
    ensures created == Made(table, from, Batch(count), call, works) && reply == |created|
  {
    hide CString, Creates;
    var n := Batch(count);
    reply, created := 0, [];
    var i := 0;
    while i < n && CString(table[from + i]) != []
      invariant 0 <= i <= n && forall k :: from <= k < from + i ==> CString(table[k]) != []
      invariant created == Made(table, from, i, call, works) && reply == |created|
    {
      MadeNext(table, from, i, call, works);
      if works(call, i) {
        created := created + [from + i];
        reply := reply + 1;
      }
      i := i + 1;
    }
    NoneBehind(table, from, i, n, call, works);
  }

  lemma MadeNext(table: seq<Name>, from: nat, i: nat, call: nat, works: Successes)
    requires from + i < |table| && forall k :: from <= k <= from + i ==> CString(table[k]) != []
    ensures Made(table, from, i + 1, call, works) == Made(table, from, i, call, works) + if works(call, i) then [from + i] else []
  {
  }

  /** Behind an empty name nothing is created. */
  lemma {:induction false} NoneBehind(table: seq<Name>, from: nat, i: nat, n: nat, call: nat, works: Successes)
    requires i <= n && from + n <= |table| && (i < n ==> CString(table[from + i]) == [])
    ensures Made(table, from, n, call, works) == Made(table, from, i, call, works)
  {
    if i < n {
      NoneBehind(table, from, i, n - 1, call, works);
    }
  }

  /** What a loop of requests has created, where in the table it has stopped, and the number of the next request. */
  datatype Progress = Progress(created: seq<nat>, stop: nat, call: nat)

  function Sent(table: seq<Name>, from: nat, end: nat, call: nat, works: Successes): (r: Progress)
    requires from <= end <= |table|
    ensures from <= r.stop <= end && |r.created| == r.stop - from
    ensures forall k :: 0 <= k < |r.created| ==> from <= r.created[k] < end
    decreases end - from
  {
    if from == end then Progress([], from, call) else
    var made := Made(table, from, Batch(end - from), call, works);
    if made == [] then Progress([], from, call + 1) else
    var rest := Sent(table, from + |made|, end, call + 1, works);
    rest.(created := made + rest.created)
  }

  /** Both loops: up to the file itself, and from behind the place where that stopped. */
  function SentAround(table: seq<Name>, path: seq<byte>, works: Successes): (r: (Progress, Progress))
    ensures r.0 == Sent(table, 0, OwnIndex(table, path, 0), 0, works)
    ensures r.1 == if r.0.stop + 1 < |table| then Sent(table, r.0.stop + 1, |table|, r.0.call, works) else Progress([], |table|, r.0.call)
  {
    var before := Sent(table, 0, OwnIndex(table, path, 0), 0, works);
    (before, if before.stop + 1 < |table| then Sent(table, before.stop + 1, |table|, before.call, works) else Progress([], |table|, before.call))
  }

  function CreatedBy(table: seq<Name>, path: seq<byte>, works: Successes): seq<nat> {
    SentAround(table, path, works).0.created + SentAround(table, path, works).1.created
  }

  /** The places of all aliases but the file itself. */
  function Others(table: seq<Name>, path: seq<byte>): seq<nat> {
    var own := OwnIndex(table, path, 0);
    Range(0, own) + if own < |table| then Range(own + 1, |table|) else []
  }

  /**
   * CreateCrossLinkedFiles. A reply counts the aliases created wherever they are in the request, while the code goes on as
   * if they were the first ones sent; and when a request in front of the file creates nothing, the code goes on behind
   * the alias that it stopped at. An error is reported exactly if the last loop that has something to send stops short.
   */
  method CreateCrossLinkedFiles(table: seq<Name>, path: seq<byte>, works: Successes) returns (result: int, created: seq<nat>)
    ensures created == CreatedBy(table, path, works)
    ensures var (before, behind) := SentAround(table, path, works);
            if (if before.stop + 1 < |table| then behind.stop < |table| else before.stop < OwnIndex(table, path, 0)) then result == -EIO
            else result >= 0
  {
    hide Sent, OwnIndex, CString, Made;
    var numFiles := FindOwn(table, path);
    var fileIndex, calls;
    result, created, fileIndex, calls := SendBatches(table, 0, numFiles, 0, works);
    fileIndex := fileIndex + 1;
    if fileIndex < |table| {
      var more;
      result, more, fileIndex, calls := SendBatches(table, fileIndex, |table|, calls, works);
      created := created + more;
    }
  }

  method FindOwn(table: seq<Name>, path: seq<byte>) returns (numFiles: nat)
    ensures numFiles == OwnIndex(table, path, 0)
  {
    numFiles := 0;
    while numFiles < |table| && CString(table[numFiles]) != path
      invariant 0 <= numFiles <= |table| && OwnIndex(table, path, numFiles) == OwnIndex(table, path, 0)
    {
      numFiles := numFiles + 1;
    }
  }

  /** One of the two loops: each request goes on as many aliases further as the last one has created. */
  method SendBatches(table: seq<Name>, from: nat, end: nat, call: nat, works: Successes)
    returns (result: int, created: seq<nat>, fileIndex: nat, calls: nat)
    requires from <= end <= |table|
    ensures Progress(created, fileIndex, calls) == Sent(table, from, end, call, works)
    ensures if fileIndex < end then result == -5 else result >= 0
  {
    hide Made, Sent, CString;
    result, created, fileIndex, calls := 0, [], from, call;
    var numFiles := end - from;
    while numFiles > 0
      invariant from <= fileIndex <= end && numFiles == end - fileIndex && result >= 0
      invariant Follows(table, from, end, call, works, created, fileIndex, calls)
      decreases numFiles
    {
      SentNext(table, fileIndex, end, calls, works);
      ghost var before := created;
      var more;
      result, more := Request(table, fileIndex, numFiles, calls, works);
      calls := calls + 1;
      if result <= 0 {
        return -EIO, created, fileIndex, calls;
      }
      created := created + more;
      fileIndex, numFiles := fileIndex + result, numFiles - result;
      assert before + (more + Sent(table, fileIndex, end, calls, works).created) == created + Sent(table, fileIndex, end, calls, works).created;
    }
    NothingToSend(table, end, calls, works);
  }

  /** The loop that has created `created` and stands at `fileIndex` goes on to what the whole loop does. */
  ghost predicate Follows(table: seq<Name>, from: nat, end: nat, call: nat, works: Successes, created: seq<nat>, fileIndex: nat, calls: nat)
    requires from <= end <= |table| && fileIndex <= end
  {
    var rest := Sent(table, fileIndex, end, calls, works);
    Sent(table, from, end, call, works) == rest.(created := created + rest.created)
  }

  /** A request of `n` aliases creates its first one, and none behind one that it does not create. */
  predicate InOrder(table: seq<Name>, from: nat, n: nat, call: nat, works: Successes)
    requires 0 < n && from + n <= |table|
  {
    Creates(table, from, call, works, 0) &&
    forall i, j :: 0 <= i < j < n && Creates(table, from, call, works, j) ==> Creates(table, from, call, works, i)
  }

  /** Every request of a loop creates its first alias, and none behind one that it does not create. */
  predicate AllInOrder(table: seq<Name>, from: nat, end: nat, call: nat, works: Successes)
    requires from <= end <= |table|
    decreases end - from
  {
    from == end ||
    (InOrder(table, from, Batch(end - from), call, works) &&
     var made := Made(table, from, Batch(end - from), call, works);
     made != [] && AllInOrder(table, from + |made|, end, call + 1, works))
  }

  lemma {:induction false} MadeInOrder(table: seq<Name>, from: nat, n: nat, call: nat, works: Successes)
    requires 0 < n && from + n <= |table|
    ensures var made := Made(table, from, n, call, works);
            InOrder(table, from, n, call, works) <==> made != [] && made == Range(from, from + |made|)
  {
    var made := Made(table, from, n, call, works);
    if InOrder(table, from, n, call, works) {
      PrefixMade(table, from, n, call, works);
    } else if made != [] && made == Range(from, from + |made|) {
      RangeIsInOrder(table, from, n, call, works);
    }
  }

  lemma RangeIsInOrder(table: seq<Name>, from: nat, n: nat, call: nat, works: Successes)
    requires 0 < n && from + n <= |table| && Made(table, from, n, call, works) != []
    requires Made(table, from, n, call, works) == Range(from, from + |Made(table, from, n, call, works)|)
    ensures InOrder(table, from, n, call, works)
  {
    hide Made, Creates;
    var made := Made(table, from, n, call, works);
    assert made[0] == from;
    MadeMember(table, from, n, call, works, 0);
    forall i, j | 0 <= i < j < n && Creates(table, from, call, works, j)
      ensures Creates(table, from, call, works, i)
    {
      MadeMember(table, from, n, call, works, i);
      MadeMember(table, from, n, call, works, j);
      assert j < |made| && made[i] == from + i;
    }
  }

  lemma {:induction false} MadeMember(table: seq<Name>, from: nat, n: nat, call: nat, works: Successes, i: nat)
    requires from + n <= |table| && i < n
    ensures Creates(table, from, call, works, i) <==> from + i in Made(table, from, n, call, works)
  {
    var before, made := Made(table, from, n - 1, call, works), Made(table, from, n, call, works);
    assert made == before || made == before + [from + n - 1];
    if i < n - 1 {
      MadeMember(table, from, n - 1, call, works, i);
    }
  }

  lemma {:induction false} PrefixMade(table: seq<Name>, from: nat, n: nat, call: nat, works: Successes)
    requires 0 < n && from + n <= |table| && InOrder(table, from, n, call, works)
    ensures var made := Made(table, from, n, call, works);
            made != [] && made == Range(from, from + |made|) && (Creates(table, from, call, works, n - 1) ==> |made| == n)
  {
    if n > 1 {
      PrefixMade(table, from, n - 1, call, works);
      assert Creates(table, from, call, works, n - 1) ==> Creates(table, from, call, works, n - 2);
    } else {
      assert Made(table, from, 0, call, works) == [];
    }
  }

  lemma SentNext(table: seq<Name>, from: nat, end: nat, call: nat, works: Successes)
    requires from < end <= |table|
    ensures var made := Made(table, from, Batch(end - from), call, works);
            Sent(table, from, end, call, works) ==
            if made == [] then Progress([], from, call + 1)
            else var rest := Sent(table, from + |made|, end, call + 1, works); rest.(created := made + rest.created)
  {
  }

  lemma AllInOrderNext(table: seq<Name>, from: nat, end: nat, call: nat, works: Successes)
    requires from < end <= |table|
    ensures var made := Made(table, from, Batch(end - from), call, works);
            AllInOrder(table, from, end, call, works) <==>
              InOrder(table, from, Batch(end - from), call, works) && made != [] && AllInOrder(table, from + |made|, end, call + 1, works)
  {
    hide InOrder, Made;
  }

  /** A loop of requests creates every alias once, in order, exactly if all its requests are in order. */
  lemma {:induction false} LoopInOrder(table: seq<Name>, from: nat, end: nat, call: nat, works: Successes)
    requires from <= end <= |table|
    ensures Sent(table, from, end, call, works).created == Range(from, end) <==> AllInOrder(table, from, end, call, works)
    decreases end - from
  {
    if from < end {
      LoopInOrderNext(table, from, end, call, works);
    }
  }

  lemma {:induction false} LoopInOrderNext(table: seq<Name>, from: nat, end: nat, call: nat, works: Successes)
    requires from < end <= |table|
    ensures Sent(table, from, end, call, works).created == Range(from, end) <==> AllInOrder(table, from, end, call, works)
    decreases end - from, 0
  {
    hide Made, InOrder, Creates, Sent, AllInOrder;
    var made := Made(table, from, Batch(end - from), call, works);
    SentNext(table, from, end, call, works);
    AllInOrderNext(table, from, end, call, works);
    MadeInOrder(table, from, Batch(end - from), call, works);
    if made != [] {
      LoopInOrder(table, from + |made|, end, call + 1, works);
      assert Range(from, end) == Range(from, from + |made|) + Range(from + |made|, end);
      SplitEqual(made, Sent(table, from + |made|, end, call + 1, works).created, Range(from, from + |made|), Range(from + |made|, end));
    }
  }

  lemma SplitEqual(a: seq<nat>, b: seq<nat>, c: seq<nat>, d: seq<nat>)
    requires |a| == |c|
    ensures a + b == c + d <==> a == c && b == d
  {
    assert a == (a + b)[..|a|] && b == (a + b)[|a|..] && c == (c + d)[..|a|] && d == (c + d)[|a|..];
  }

  /** Every alias but the file itself is created once, in order, exactly if every request of both loops is in order. */
  lemma CreatedOnceExactlyIfInOrder(table: seq<Name>, path: seq<byte>, works: Successes)
    ensures var own := OwnIndex(table, path, 0);
            var calls := SentAround(table, path, works).0.call;
            CreatedBy(table, path, works) == Others(table, path) <==>
              AllInOrder(table, 0, own, 0, works) && (own + 1 < |table| ==> AllInOrder(table, own + 1, |table|, calls, works))
  {
    hide Sent, OwnIndex, CString, Made, AllInOrder;
    var own := OwnIndex(table, path, 0);
    var (before, behind) := SentAround(table, path, works);
    LoopInOrder(table, 0, own, 0, works);
    if before.stop == own {
      if own + 1 < |table| {
        LoopInOrder(table, own + 1, |table|, before.call, works);
      }
      SplitEqual(before.created, behind.created, Range(0, own), if own < |table| then Range(own + 1, |table|) else []);
    } else {
      var a := before.stop;
      assert |Others(table, path)| > a && Others(table, path)[a] == a;
      assert behind.created != [] ==> CreatedBy(table, path, works)[a] == behind.created[0] > a;
    }
  }

  /** In particular, if every request creates all that it was sent. */
  lemma {:induction false} CompleteIsInOrder(table: seq<Name>, from: nat, end: nat, call: nat, works: Successes)
    requires from <= end <= |table|
    requires forall i, k :: works(i, k)
    requires forall k :: from <= k < end ==> CString(table[k]) != []
    ensures AllInOrder(table, from, end, call, works)
    decreases end - from
  {
    if from < end {
      var n := Batch(end - from);
      assert Creates(table, from, call, works, 0);
      MadeInOrder(table, from, n, call, works);
      CompleteIsInOrder(table, from + |Made(table, from, n, call, works)|, end, call + 1, works);
    }
  }

  /** When only the last alias of a request fails, the next request begins with it and can mend the failure. */
  lemma FailureAtTheEndIsMended(table: seq<Name>, path: seq<byte>, works: Successes)
    requires |table| == 2 && forall k :: 0 <= k < 2 ==> CString(table[k]) != [] && CString(table[k]) != path
    requires forall i, k :: works(i, k) <==> !(i == 0 && k == 1)
    ensures CreatedBy(table, path, works) == [0, 1] == Others(table, path)
  {
    hide CString;
    assert OwnIndex(table, path, 0) == 2;
    assert Made(table, 0, 0, 0, works) == [] && Made(table, 0, 1, 0, works) == [0] && Made(table, 0, 2, 0, works) == [0];
    assert Made(table, 1, 0, 1, works) == [] && Made(table, 1, 1, 1, works) == [1];
    assert Sent(table, 2, 2, 2, works) == Progress([], 2, 2);
    assert Sent(table, 1, 2, 1, works) == Progress([1], 2, 2);
    assert Sent(table, 0, 2, 0, works) == Progress([0, 1], 2, 2);
    assert Others(table, path) == [0, 1];
  }

  /** The second of three aliases fails in the first request only: the third is created twice, the second never, and no error is reported. */
  lemma SecondIsLostThirdDoubled(table: seq<Name>, path: seq<byte>, works: Successes)
    requires |table| == 3 && forall k :: 0 <= k < 3 ==> CString(table[k]) != [] && CString(table[k]) != path
    requires forall i, k :: works(i, k) <==> !(i == 0 && k == 1)
    ensures CreatedBy(table, path, works) == [0, 2, 2]
    ensures SentAround(table, path, works).0.stop == 3 == OwnIndex(table, path, 0)
  {
    hide CString;
    hide Made, Sent;
    assert OwnIndex(table, path, 0) == 3;
    MadeOfThree(table, works);
    SentNext(table, 0, 3, 0, works);
    SentNext(table, 2, 3, 1, works);
    NothingToSend(table, 3, 2, works);
  }

  lemma MadeOfThree(table: seq<Name>, works: Successes)
    requires |table| == 3 && forall k :: 0 <= k < 3 ==> CString(table[k]) != []
    requires forall i, k :: works(i, k) <==> !(i == 0 && k == 1)
    ensures Made(table, 0, 3, 0, works) == [0, 2] && Made(table, 2, 1, 1, works) == [2]
  {
    hide CString;
    assert Made(table, 0, 0, 0, works) == [] && Made(table, 0, 1, 0, works) == [0] && Made(table, 0, 2, 0, works) == [0];
    assert Made(table, 2, 0, 1, works) == [];
  }

  lemma NothingToSend(table: seq<Name>, end: nat, call: nat, works: Successes)
    requires end <= |table|
    ensures Sent(table, end, end, call, works) == Progress([], end, call)
  {
  }

  /** The recorded names one after the other, behind the header, the console's version and their number. */
  function FileOf(version: nat, romver: seq<byte>, names: seq<Name>): seq<byte>
    requires version < 0x1_0000 && |romver| == 5 && |names| <= 255
  {
    [0x46, 0x42] + OfU16(version) + romver + [|names|] + Flat(names)
  }

  lemma FlatOneMore(names: seq<Name>, name: Name)
    ensures Flat(names + [name]) == Flat(names) + name
  {
    assert (names + [name])[..|names|] == names;
  }

  lemma NothingYet(path: seq<byte>)
    ensures Recorded([], path) == [] && Flat([]) == []
  {
  }

  function NamesAt(table: seq<Name>, ids: seq<nat>): (names: seq<Name>)
    requires forall k :: 0 <= k < |ids| ==> ids[k] < |table|
    ensures |names| == |ids| && forall k :: 0 <= k < |ids| ==> names[k] == table[ids[k]]
  {
    seq(|ids|, k requires 0 <= k < |ids| => table[ids[k]])
  }

  /** After a run whose requests are all in order, what is recorded is what was created exactly if the file itself is listed at most once. */
  lemma RecordedIsCreatedExactlyIfListedOnce(table: seq<Name>, path: seq<byte>, works: Successes)
    requires CreatedBy(table, path, works) == Others(table, path)
    ensures Recorded(table, path) == NamesAt(table, CreatedBy(table, path, works)) <==>
            forall j :: OwnIndex(table, path, 0) < j < |table| ==> CString(table[j]) != path
  {
    hide Recorded, OwnIndex, CString, CreatedBy;
    RecordedIsOthersExactlyIfListedOnce(table, path);
    assert NamesAt(table, Others(table, path)) == OthersOf(table, path);
  }

  /**
   * When the card creates whatever it is sent, no name is empty and the file itself is listed at most once, every other
   * alias is created once, in order, and the record is of just these.
   */
  lemma AllGoesWell(table: seq<Name>, path: seq<byte>, works: Successes)
    requires forall i, k :: works(i, k)
    requires forall k :: 0 <= k < |table| ==> CString(table[k]) != []
    requires forall j :: OwnIndex(table, path, 0) < j < |table| ==> CString(table[j]) != path
    ensures CreatedBy(table, path, works) == Others(table, path)
    ensures Recorded(table, path) == NamesAt(table, CreatedBy(table, path, works))
  {
    hide Recorded, OwnIndex, CString, CreatedBy, AllInOrder, Others;
    var own := OwnIndex(table, path, 0);
    CompleteIsInOrder(table, 0, own, 0, works);
    if own + 1 < |table| {
      CompleteIsInOrder(table, own + 1, |table|, SentAround(table, path, works).0.call, works);
    }
    CreatedOnceExactlyIfInOrder(table, path, works);
    RecordedIsCreatedExactlyIfListedOnce(table, path, works);
  }

  /** GenerateUninstallFile; its counters are single bytes, so longer tables than this are not for it. */
  method GenerateUninstallFile(version: nat, romver: seq<byte>, table: seq<Name>, path: seq<byte>) returns (file: seq<byte>)
    requires version < 0x1_0000 && |romver| == 5 && |table| <= 255
    ensures |Recorded(table, path)| <= 255
    ensures file == FileOf(version, romver, Recorded(table, path))
    ensures AreNames(table) ==> InBytes(file, version, romver, Recorded(table, path))
  {
    hide Flat, Recorded;
    NothingYet(path);
    file := [0x46, 0x42] + OfU16(version) + romver;
    var total := 0;
    for i := 0 to |table|
      invariant total == |Recorded(table[..i], path)| <= i
    {
      RecordedNext(table, path, i);
      if CString(table[i]) != path {
        total := total + 1;
      }
    }
    assert table[..|table|] == table;
    ghost var head := file + [total];
    file := file + [total];
    for i := 0 to |table|
      invariant file == head + Flat(Recorded(table[..i], path))
    {
      RecordedNext(table, path, i);
      if CString(table[i]) != path {
        file := file + table[i];
        FlatOneMore(Recorded(table[..i], path), table[i]);
      }
    }
    if AreNames(table) {
      RecordedNames(table, path);
      FileInBytes(version, romver, Recorded(table, path));
    }
  }

  /** "FB", the version with its low byte first, five bytes of the console, the number of names, and 66 bytes for each. */
  ghost predicate InBytes(file: seq<byte>, version: nat, romver: seq<byte>, names: seq<Name>) {
    && |file| == 10 + 66 * |names| && file[0] == 'F' as int && file[1] == 'B' as int
    && file[2] as int + 0x100 * file[3] as int == version && file[4..9] == romver && file[9] as int == |names|
    && forall k :: 0 <= k < |names| ==> file[10 + 66 * k..76 + 66 * k] == names[k]
  }

  lemma FileInBytes(version: nat, romver: seq<byte>, names: seq<Name>)
    requires version < 0x1_0000 && |romver| == 5 && |names| <= 255 && AreNames(names)
    ensures InBytes(FileOf(version, romver, names), version, romver, names)
  {
    hide Flat;
    var file := FileOf(version, romver, names);
    FlatLen(names, 66);
    TimesIsProduct(|names|, 66);
    assert file[10..] == Flat(names) && file[4..9] == romver;
    forall k | 0 <= k < |names|
      ensures file[10 + 66 * k..76 + 66 * k] == names[k]
    {
      FlatPage(names, 66, k);
      TimesIsProduct(k, 66);
      assert file[10..][66 * k..66 * k + 66] == file[10 + 66 * k..76 + 66 * k];
    }
  }

  /** HandleFMCBUninstallFile: it returns the number in the file, whether or not so many names could be read. */
  method HandleUninstallFile(file: seq<byte>) returns (result: int, romver: seq<byte>, names: seq<Name>)
    ensures |file| < 10 ==> result == -5
    ensures 10 <= |file| ==> result == file[9] as int && romver == file[4..9] && AreNames(names) && |names| <= result
    ensures 10 <= |file| ==> (result == |names| <==> 10 + 66 * result <= |file|)
    ensures 10 <= |file| ==> forall k :: 0 <= k < |names| ==> HasPage(file[10..], 66, k, names[k])
  {
    names, romver := [], [];
    if |file| < 10 {
      return -EIO, romver, names;
    }
    romver := file[4..9];
    var count: int := file[9];
    var at := 10;
    var i := 0;
    while i < count && at + NAME_LENGTH <= |file|
      invariant 0 <= i == |names| <= count && at == 10 + NAME_LENGTH * i == 10 + Times(i, NAME_LENGTH) <= |file|
      invariant AreNames(names) && forall k :: 0 <= k < |names| ==> HasPage(file[10..], NAME_LENGTH, k, names[k])
    {
      names := names + [file[at..at + NAME_LENGTH]];
      assert PageOf(file[10..], NAME_LENGTH, i) == file[at..at + NAME_LENGTH];
      at, i := at + NAME_LENGTH, i + 1;
    }
    result := count;
  }

  /** What is recorded is what is read back, in order. */
  method RecordAndRead(version: nat, romver: seq<byte>, table: seq<Name>, path: seq<byte>)
    returns (result: int, version': seq<byte>, names: seq<Name>)
    requires version < 0x1_0000 && |romver| == 5 && |table| <= 255 && AreNames(table)
    ensures result == |names| && version' == romver && names == Recorded(table, path)
  {
    var file := GenerateUninstallFile(version, romver, table, path);
    ghost var recorded := Recorded(table, path);
    RecordedNames(table, path);
    FlatLen(recorded, NAME_LENGTH);
    TimesIsProduct(|recorded|, NAME_LENGTH);
    ghost var head := [0x46, 0x42] + OfU16(version) + romver + [|recorded|];
    assert |head| == 10 && file == head + Flat(recorded) && file[4..9] == romver && file[10..] == Flat(recorded);
    result, version', names := HandleUninstallFile(file);
    forall k | 0 <= k < |names|
      ensures names[k] == recorded[k]
    {
      FlatPage(recorded, NAME_LENGTH, k);
    }
  }

  lemma {:induction false} RecordedNames(table: seq<Name>, path: seq<byte>)
    requires AreNames(table)
    ensures AreNames(Recorded(table, path))
  {
    if table != [] {
      RecordedNames(table[..|table| - 1], path);
    }
  }
}
