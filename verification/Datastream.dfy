// Datastream files in a bucket: offsets naming a file and a record, listings, and mid-file resume.
module Datastream {
  import opened Prelude
  import opened Text

  // ---- Offsets -------------------------------------------------------------------------------------------

  function EncodeOffset(path: string, index: nat): string {
    path + "#" + NatText(index)
  }

  /** The file and the last record taken from it; no record means the whole file, no path the beginning. */
  datatype Position = Position(path: string, index: Option<int>)

  function DecodeOffset(offset: Option<string>): Position {
    if offset.None? || offset.value == "" then Position("", None)
    else
      var at := LastIndexOf(offset.value, '#');
      if at < 0 then Position(offset.value, None)
      else match ParseInt(offset.value[at + 1..])
        case Some(n) => Position(offset.value[..at], Some(n))
        case None => Position(offset.value, None)
  }

  /** Decoding inverts encoding, even when the path contains the separator. */
  lemma DecodeInvertsEncode(path: string, index: nat)
    ensures DecodeOffset(Some(EncodeOffset(path, index))) == Position(path, Some(index))
  {
    var text := EncodeOffset(path, index);
    LastIndexOfMiddle(path, '#', NatText(index));
    assert text == path + ['#'] + NatText(index);
    assert text[..|path|] == path && text[|path| + 1..] == NatText(index);
    IntRoundTrip(index);
  }

  /** Offsets as stored, and the older ones: a bare path, or one whose end is no number, stands for a file
      read to its end, and no offset for the beginning. */
  lemma OffsetsAsStored(path: string, end: string)
    requires path != "" && '#' !in path && '#' !in end && ParseInt(end) == None
    ensures EncodeOffset("a/b.json", 7) == "a/b.json#7"
    ensures DecodeOffset(None) == DecodeOffset(Some("")) == Position("", None)
    ensures DecodeOffset(Some(path)) == Position(path, None)
    ensures DecodeOffset(Some(path + "#" + end)) == Position(path + "#" + end, None)
  {
    assert NatText(7) == "7" && "a/b.json" + "#" + "7" == "a/b.json#7";
    LastIndexOfMiddle(path, '#', end);
    var text := path + ['#'] + end;
    assert text[|path| + 1..] == end;
  }

  // ---- Listings ------------------------------------------------------------------------------------------

  /** One object: whether it can be read, and for each record whether it is well-formed. */
  datatype File = File(path: string, records: seq<bool>, readable: bool)

  /** An event, by the place its offset names. */
  datatype Emitted = Emitted(path: string, index: nat)

  /** Python's `<` on strings. */
  predicate PathLess(a: string, b: string)
    decreases |a|
  {
    b != "" && (a == "" || a[0] < b[0] || (a[0] == b[0] && PathLess(a[1..], b[1..])))
  }

  /** One name comes before another exactly if it is a proper beginning of it, or has the smaller character
      at the first place where they differ. */
  lemma {:induction false} FirstDifferenceDecides(a: string, b: string)
    ensures PathLess(a, b) <==> exists n: nat :: Differ(a, b, n) && n < |b| && (n == |a| || a[n] < b[n])
    decreases |a|
  {
    if a == "" {
      if b != "" { assert Differ(a, b, 0); }
    } else if b != "" {
      FirstDifferenceDecides(a[1..], b[1..]);
      if PathLess(a, b) && a[0] == b[0] {
        var n: nat :| Differ(a[1..], b[1..], n) && n < |b[1..]| && (n == |a[1..]| || a[1..][n] < b[1..][n]);
        DifferLater(a, b, n);
      } else if PathLess(a, b) {
        assert Differ(a, b, 0);
      }
      if n: nat :| Differ(a, b, n) && n < |b| && (n == |a| || a[n] < b[n]) {
        if n > 0 { DifferLater(a, b, n - 1); }
      }
    }
  }

  /** `n` is where the names first differ or one of them ends. */
  predicate Differ(a: string, b: string, n: nat) {
    n <= |a| && n <= |b| && a[..n] == b[..n] && (n < |a| && n < |b| ==> a[n] != b[n])
  }

  lemma DifferLater(a: string, b: string, n: nat)
    requires a != "" && b != ""
    ensures Differ(a, b, n + 1) <==> a[0] == b[0] && Differ(a[1..], b[1..], n)
  {
    if n < |a| && n < |b| {
      assert a[..n + 1] == [a[0]] + a[1..][..n] && b[..n + 1] == [b[0]] + b[1..][..n];
      if a[..n + 1] == b[..n + 1] { assert a[..n + 1][1..] == b[..n + 1][1..] && a[..n + 1][0] == b[..n + 1][0]; }
    }
  }

  lemma {:induction false} PathOrder(a: string, b: string)
    ensures PathLess(a, b) ==> !PathLess(b, a) && a != b
    decreases |a|
  {
    if a != "" && b != "" && a[0] == b[0] { PathOrder(a[1..], b[1..]); }
  }

  /** Sorted, distinct, non-empty names: what a listing of the bucket returns. */
  ghost predicate Listed(files: seq<File>) {
    && (forall i :: 0 <= i < |files| ==> files[i].path != "")
    && forall i, j {:trigger PathLess(files[i].path, files[j].path)} :: 0 <= i < j < |files|
         ==> PathLess(files[i].path, files[j].path)
  }

  /** The files sorted after `after`; all of them if there is no such path. */
  function NewFiles(files: seq<File>, after: string): seq<File> {
    if files == [] then []
    else NewFiles(Front(files), after)
         + (if after == "" || PathLess(after, Last(files).path) then [Last(files)] else [])
  }

  // ---- Streaming -------------------------------------------------------------------------------------------

  /** The well-formed records of a file from `from` on. */
  function RecordsFrom(f: File, from: nat): seq<Emitted>
    decreases |f.records| - from
  {
    if !f.readable || from >= |f.records| then []
    else (if f.records[from] then [Emitted(f.path, from)] else []) + RecordsFrom(f, from + 1)
  }

  function AllRecords(files: seq<File>): seq<Emitted> {
    if files == [] then [] else RecordsFrom(files[0], 0) + AllRecords(files[1..])
  }

  function FindFile(files: seq<File>, path: string): Option<File> {
    if files == [] then None else if files[0].path == path then Some(files[0]) else FindFile(files[1..], path)
  }

  /** What the resumed file still owes. */
  function Remainder(files: seq<File>, at: Position): seq<Emitted> {
    if at.path == "" || at.index.None? then []
    else match FindFile(files, at.path)
      case Some(f) => RecordsFrom(f, Max(0, at.index.value + 1))
      case None => []
  }

  function LastPath(files: seq<File>, otherwise: string): string {
    if files == [] then otherwise else Last(files).path
  }

  predicate PollOk(files: seq<File>, poll: Option<nat>) {
    poll.Some? ==> poll.value <= |files|
  }

  predicate PollsOk(files: seq<File>, polls: seq<Option<nat>>) {
    forall p :: p in polls ==> PollOk(files, p)
  }

  /** Each poll sees the first so many of the files there will ever be, or fails. */
  function Polled(files: seq<File>, last: string, polls: seq<Option<nat>>): seq<Emitted>
    requires PollsOk(files, polls)
    decreases |polls|
  {
    if polls == [] then []
    else if polls[0].None? then Polled(files, last, polls[1..])
    else
      assert PollOk(files, polls[0]);
      var added := NewFiles(files[..polls[0].value], last);
      AllRecords(added) + Polled(files, LastPath(added, last), polls[1..])
  }

  function Streamed(files: seq<File>, offset: Option<string>, polls: seq<Option<nat>>): seq<Emitted>
    requires PollsOk(files, polls)
  {
    var at := DecodeOffset(offset);
    Remainder(files, at) + Polled(files, at.path, polls)
  }

  lemma PolledStep(files: seq<File>, last: string, polls: seq<Option<nat>>, k: nat)
    requires k < |polls| && PollsOk(files, polls)
    ensures PollsOk(files, polls[k..]) && PollsOk(files, polls[k + 1..]) && PollOk(files, polls[k])
    ensures polls[k].None? ==> Polled(files, last, polls[k..]) == Polled(files, last, polls[k + 1..])
    ensures polls[k].Some? ==>
              var added := NewFiles(files[..polls[k].value], last);
              Polled(files, last, polls[k..])
                == AllRecords(added) + Polled(files, LastPath(added, last), polls[k + 1..])
  {
    assert polls[k..][1..] == polls[k + 1..];
  }

  lemma Assoc(a: seq<Emitted>, b: seq<Emitted>, c: seq<Emitted>)
    ensures a + (b + c) == a + b + c
  {
  }

  class DatastreamSource {
    /** Records of one file, by index. */
    method EmitFrom(f: File, from: nat, before: seq<Emitted>) returns (out: seq<Emitted>)
      ensures out == before + RecordsFrom(f, from)
    {
      out := before;
      if f.readable {
        var index := from;
        while index < |f.records|
          invariant from <= index && out + RecordsFrom(f, index) == before + RecordsFrom(f, from)
          decreases |f.records| - index
        {
          if f.records[index] {
            out := out + [Emitted(f.path, index)];
          }
          index := index + 1;
        }
      }
    }

    /** One listing's new files. */
    method EmitFiles(added: seq<File>, last: string, before: seq<Emitted>) returns (out: seq<Emitted>, lastFile: string)
      ensures out == before + AllRecords(added) && lastFile == LastPath(added, last)
    {
      out, lastFile := before, last;
      for k := 0 to |added|
        invariant out + AllRecords(added[k..]) == before + AllRecords(added)
        invariant lastFile == LastPath(added[..k], last)
      {
        assert added[k..][1..] == added[k + 1..];
        Assoc(out, RecordsFrom(added[k], 0), AllRecords(added[k + 1..]));
        out := EmitFrom(added[k], 0, out);
        lastFile := added[k].path;
      }
      assert added[..|added|] == added;
    }

    /** The rest of the file the offset names. */
    method Resume(files: seq<File>, at: Position) returns (out: seq<Emitted>)
      ensures out == Remainder(files, at)
    {
      out := [];
      if at.path != "" && at.index.Some? {
        var found := FindFile(files, at.path);
        if found.Some? {
          out := EmitFrom(found.value, Max(0, at.index.value + 1), out);
        }
      }
    }

    /** The first so many polls of the unbounded loop. */
    method Stream(files: seq<File>, offset: Option<string>, polls: seq<Option<nat>>) returns (out: seq<Emitted>)
      requires PollsOk(files, polls)
      ensures out == Streamed(files, offset, polls)
    {
      var at := DecodeOffset(offset);
      var lastFile := at.path;
      out := Resume(files, at);
      for k := 0 to |polls|
        invariant out + Polled(files, lastFile, polls[k..]) == Streamed(files, offset, polls)
      {
        PolledStep(files, lastFile, polls, k);
        if polls[k].None? {
          continue;
        }
        var added := NewFiles(files[..polls[k].value], lastFile);
        Assoc(out, AllRecords(added), Polled(files, LastPath(added, lastFile), polls[k + 1..]));
        out, lastFile := EmitFiles(added, lastFile, out);
      }
    }
  }

  // ---- Exactness -------------------------------------------------------------------------------------------

  lemma {:induction false} AllRecordsConcat(a: seq<File>, b: seq<File>)
    ensures AllRecords(a + b) == AllRecords(a) + AllRecords(b)
  {
    if a == [] {
      assert a + b == b;
    } else {
      AllRecordsConcat(a[1..], b);
      FirstFile(a, b);
      Assoc(RecordsFrom(a[0], 0), AllRecords(a[1..]), AllRecords(b));
    }
  }

  lemma FirstFile(a: seq<File>, b: seq<File>)
    requires a != []
    ensures AllRecords(a + b) == RecordsFrom(a[0], 0) + AllRecords(a[1..] + b)
  {
    assert (a + b)[1..] == a[1..] + b;
  }

  /** File `n - 1` counts as new after the first `k` exactly if it is not among them. */
  lemma IsNew(files: seq<File>, k: nat, n: nat)
    requires Listed(files) && k <= |files| && 0 < n <= |files|
    ensures var after := LastPath(files[..k], "");
            (after == "" || PathLess(after, files[n - 1].path)) <==> k < n
  {
    if k > 0 {
      assert Last(files[..k]) == files[k - 1] && files[k - 1].path != "";
      PathOrder(files[n - 1].path, files[k - 1].path);
      PathOrder(files[k - 1].path, files[k - 1].path);
      assert k < n ==> PathLess(files[k - 1].path, files[n - 1].path);
      assert n < k ==> PathLess(files[n - 1].path, files[k - 1].path);
    }
  }

  lemma NewFilesSnoc(files: seq<File>, n: nat, after: string)
    requires 0 < n <= |files|
    ensures NewFiles(files[..n], after) == NewFiles(files[..n - 1], after)
              + (if after == "" || PathLess(after, files[n - 1].path) then [files[n - 1]] else [])
  {
    assert Front(files[..n]) == files[..n - 1] && Last(files[..n]) == files[n - 1];
  }

  lemma RangeSnoc(files: seq<File>, k: nat, n: nat)
    requires k < n <= |files|
    ensures files[k..n] == files[k..n - 1] + [files[n - 1]]
  {
  }

  /** A name comes after the place where reading stopped; with no such place every name does. */
  predicate After(place: string, path: string) {
    place == "" || PathLess(place, path)
  }

  /** The files after the place are those from `k` on. */
  predicate StartsAt(files: seq<File>, place: string, k: nat) {
    k <= |files| && forall j :: 0 <= j < |files| ==> (After(place, files[j].path) <==> j >= k)
  }

  lemma {:induction false} NewFilesFrom(files: seq<File>, place: string, k: nat, n: nat)
    requires StartsAt(files, place, k) && n <= |files|
    ensures NewFiles(files[..n], place) == if k <= n then files[k..n] else []
    decreases n
  {
    if n > 0 {
      NewFilesFrom(files, place, k, n - 1);
      NewFilesSnoc(files, n, place);
      assert After(place, files[n - 1].path) <==> n - 1 >= k;
      if k < n { RangeSnoc(files, k, n); }
    }
  }

  lemma RestStartsAt(files: seq<File>, k: nat)
    requires Listed(files) && k <= |files|
    ensures StartsAt(files, LastPath(files[..k], ""), k)
  {
    forall j | 0 <= j < |files| ensures After(LastPath(files[..k], ""), files[j].path) <==> j >= k {
      IsNew(files, k, j + 1);
    }
  }

  /** After the first `k` files, the new ones are the rest of the listing. */
  lemma NewFilesAreTheRest(files: seq<File>, k: nat, n: nat)
    requires Listed(files) && k <= |files| && n <= |files|
    ensures NewFiles(files[..n], LastPath(files[..k], "")) == if k <= n then files[k..n] else []
  {
    RestStartsAt(files, k);
    NewFilesFrom(files, LastPath(files[..k], ""), k, n);
  }

  /** How many files have been listed, starting from `k`. */
  function Reach(polls: seq<Option<nat>>, k: nat): (r: nat)
    ensures k <= r
    decreases |polls|
  {
    if polls == [] then k
    else Reach(polls[1..], if polls[0].Some? && polls[0].value > k then polls[0].value else k)
  }

  /** Polling from any place emits exactly the records of the files after it listed since, in order. */
  lemma {:induction false} PolledIsExact(files: seq<File>, place: string, k: nat, polls: seq<Option<nat>>)
    requires Listed(files) && StartsAt(files, place, k) && PollsOk(files, polls)
    ensures k <= Reach(polls, k) <= |files|
    ensures Polled(files, place, polls) == AllRecords(files[k..Reach(polls, k)])
    decreases |polls|
  {
    if polls != [] {
      assert PollOk(files, polls[0]) && PollsOk(files, polls[1..]);
      if polls[0].None? {
        PolledIsExact(files, place, k, polls[1..]);
      } else {
        var n := polls[0].value;
        var m := if n > k then n else k;
        OnePoll(files, place, k, n);
        PolledIsExact(files, LastPath(NewFiles(files[..n], place), place), m, polls[1..]);
        JoinRanges(files, k, m, Reach(polls[1..], m));
      }
    }
  }

  /** One listing moves the place to the end of what it shows, if that is further. */
  lemma OnePoll(files: seq<File>, place: string, k: nat, n: nat)
    requires Listed(files) && StartsAt(files, place, k) && n <= |files|
    ensures var m := if n > k then n else k;
            var added := NewFiles(files[..n], place);
            added == files[k..m] && StartsAt(files, LastPath(added, place), m)
  {
    NewFilesFrom(files, place, k, n);
    if n > k {
      RestStartsAt(files, n);
      assert Last(files[k..n]) == files[n - 1] == Last(files[..n]);
    }
  }

  lemma JoinRanges(files: seq<File>, k: nat, m: nat, r: nat)
    requires k <= m <= r <= |files|
    ensures AllRecords(files[k..m]) + AllRecords(files[m..r]) == AllRecords(files[k..r])
  {
    AllRecordsConcat(files[k..m], files[m..r]);
    assert files[k..m] + files[m..r] == files[k..r];
  }

  /** How far the polls have seen: at least as far as each of them, and no further than the furthest. */
  lemma {:induction false} ReachIsFurthest(polls: seq<Option<nat>>, k: nat)
    ensures forall p :: p in polls && p.Some? ==> p.value <= Reach(polls, k)
    ensures Reach(polls, k) == k || Some(Reach(polls, k)) in polls
    decreases |polls|
  {
    if polls != [] {
      ReachIsFurthest(polls[1..], if polls[0].Some? && polls[0].value > k then polls[0].value else k);
      assert polls == [polls[0]] + polls[1..];
    }
  }

  /** From nothing: every record of the listed files, once and in order. */
  lemma FromNothingIsExact(files: seq<File>, polls: seq<Option<nat>>)
    requires Listed(files) && PollsOk(files, polls)
    ensures Reach(polls, 0) <= |files|
    ensures Streamed(files, None, polls) == AllRecords(files[..Reach(polls, 0)])
  {
    RestStartsAt(files, 0);
    PolledIsExact(files, "", 0, polls);
    assert files[..0] == [] && files[0..Reach(polls, 0)] == files[..Reach(polls, 0)];
  }

  lemma TailListed(files: seq<File>)
    requires Listed(files) && files != []
    ensures Listed(files[1..])
  {
    forall i, j | 0 <= i < j < |files[1..]| ensures PathLess(files[1..][i].path, files[1..][j].path) {
      assert PathLess(files[i + 1].path, files[j + 1].path);
    }
  }

  lemma {:induction false} FindFileAt(files: seq<File>, i: nat)
    requires Listed(files) && i < |files|
    ensures FindFile(files, files[i].path) == Some(files[i])
  {
    if i > 0 {
      assert PathLess(files[0].path, files[i].path);
      PathOrder(files[0].path, files[i].path);
      assert Listed(files[1..]) by { TailListed(files); }
      FindFileAt(files[1..], i - 1);
    }
  }

  /** Where the record stands in the file's emissions, and what follows it. */
  lemma {:induction false} RecordsAfter(f: File, from: nat, index: nat)
    requires f.readable && from <= index < |f.records| && f.records[index]
    ensures var all := RecordsFrom(f, from); var rest := RecordsFrom(f, index + 1);
            && |rest| < |all| && all[|all| - |rest| - 1] == Emitted(f.path, index) && all[|all| - |rest|..] == rest
    decreases index - from
  {
    if from < index {
      RecordsAfter(f, from + 1, index);
      RecordsStep(f, from);
      var head := if f.records[from] then [Emitted(f.path, from)] else [];
      KeepsSuffix(head, RecordsFrom(f, from + 1), |RecordsFrom(f, index + 1)|);
    }
  }

  lemma RecordsStep(f: File, from: nat)
    requires f.readable && from < |f.records|
    ensures RecordsFrom(f, from)
            == (if f.records[from] then [Emitted(f.path, from)] else []) + RecordsFrom(f, from + 1)
  {
  }

  lemma KeepsSuffix(head: seq<Emitted>, tail: seq<Emitted>, n: nat)
    requires n < |tail|
    ensures var all := head + tail; all[|all| - n..] == tail[|tail| - n..] && all[|all| - n - 1] == tail[|tail| - n - 1]
  {
  }

  /** Every emission is a well-formed record of a readable file. */
  lemma {:induction false} EmissionSource(files: seq<File>, e: Emitted)
    requires e in AllRecords(files)
    ensures exists i :: 0 <= i < |files| && files[i].path == e.path && IsRecord(files[i], e.index)
    decreases |files|
  {
    if e in RecordsFrom(files[0], 0) {
      EmissionIndex(files[0], 0, e);
    } else {
      EmissionSource(files[1..], e);
      var i :| 0 <= i < |files[1..]| && files[1..][i].path == e.path && IsRecord(files[1..][i], e.index);
      assert files[i + 1] == files[1..][i];
    }
  }

  predicate IsRecord(f: File, index: nat) {
    f.readable && index < |f.records| && f.records[index]
  }

  lemma {:induction false} EmissionIndex(f: File, from: nat, e: Emitted)
    requires e in RecordsFrom(f, from)
    ensures e.path == f.path && IsRecord(f, e.index)
    decreases |f.records| - from
  {
    if e in RecordsFrom(f, from + 1) { EmissionIndex(f, from + 1, e); }
  }

  /** One event comes before another: in an earlier file, or earlier in the same one. */
  predicate Earlier(e: Emitted, f: Emitted) {
    PathLess(e.path, f.path) || (e.path == f.path && e.index < f.index)
  }

  ghost predicate InOrder(out: seq<Emitted>) {
    forall a, b :: 0 <= a < b < |out| ==> Earlier(out[a], out[b])
  }

  lemma {:induction false} RecordsInOrder(f: File, from: nat)
    ensures var out := RecordsFrom(f, from);
            && InOrder(out)
            && forall e :: e in out <==> e.path == f.path && from <= e.index && IsRecord(f, e.index)
    decreases |f.records| - from
  {
    if f.readable && from < |f.records| {
      RecordsInOrder(f, from + 1);
      if f.records[from] { FirstThen(Emitted(f.path, from), RecordsFrom(f, from + 1)); }
    }
  }

  lemma FirstThen(e: Emitted, rest: seq<Emitted>)
    requires InOrder(rest) && forall g :: g in rest ==> Earlier(e, g)
    ensures InOrder([e] + rest)
  {
  }

  lemma OrderedConcat(a: seq<Emitted>, b: seq<Emitted>)
    requires InOrder(a) && InOrder(b) && forall e, g :: e in a && g in b ==> Earlier(e, g)
    ensures InOrder(a + b)
  {
    forall i, j | 0 <= i < j < |a + b| ensures Earlier((a + b)[i], (a + b)[j]) {
      if i < |a| && j >= |a| { assert (a + b)[i] in a && (a + b)[j] in b; }
    }
  }

  predicate EmittedBy(files: seq<File>, i: nat, e: Emitted)
    requires i < |files|
  {
    files[i].path == e.path && IsRecord(files[i], e.index)
  }

  /** One of the files from `lo` to `hi` emits it. */
  predicate FromSome(files: seq<File>, lo: nat, hi: nat, e: Emitted)
    requires hi <= |files|
  {
    exists i :: lo <= i < hi && EmittedBy(files, i, e)
  }

  /** Everything emitted from a listing: exactly its well-formed records, in order and hence once. */
  lemma {:induction false} AllInOrder(files: seq<File>)
    requires Listed(files)
    ensures InOrder(AllRecords(files))
    ensures forall e :: e in AllRecords(files) <==> FromSome(files, 0, |files|, e)
    decreases |files|
  {
    if files != [] {
      var head, rest := RecordsFrom(files[0], 0), AllRecords(files[1..]);
      TailListed(files);
      AllInOrder(files[1..]);
      RecordsInOrder(files[0], 0);
      forall e, g | e in head && g in rest ensures Earlier(e, g) {
        var i :| 0 <= i < |files[1..]| && EmittedBy(files[1..], i, g);
        assert PathLess(files[0].path, files[i + 1].path);
      }
      OrderedConcat(head, rest);
      forall e ensures e in AllRecords(files) <==> FromSome(files, 0, |files|, e) {
        FirstOrLater(files, e);
      }
    }
  }

  lemma FirstOrLater(files: seq<File>, e: Emitted)
    requires files != []
    ensures FromSome(files, 0, |files|, e) <==> EmittedBy(files, 0, e) || FromSome(files[1..], 0, |files| - 1, e)
  {
    if i :| 1 <= i < |files| && EmittedBy(files, i, e) { assert EmittedBy(files[1..], i - 1, e); }
    if i :| 0 <= i < |files[1..]| && EmittedBy(files[1..], i, e) { assert EmittedBy(files, i + 1, e); }
  }

  /** Some poll has listed file `i`. */
  predicate Seen(polls: seq<Option<nat>>, i: nat) {
    exists p :: p in polls && p.Some? && i < p.value
  }

  lemma {:induction false} PathsChain(a: string, b: string, c: string)
    requires PathLess(a, b) && PathLess(b, c)
    ensures PathLess(a, c)
    decreases |a|
  {
    if a != "" && a[0] == b[0] == c[0] { PathsChain(a[1..], b[1..], c[1..]); }
  }

  /** Any place, listed or not, cuts the listing in two. */
  lemma {:induction false} PlaceOf(files: seq<File>, place: string) returns (k: nat)
    requires Listed(files)
    ensures StartsAt(files, place, k)
    decreases |files|
  {
    if files == [] {
      k := 0;
    } else {
      SliceListed(files, 0, |files| - 1);
      var front, last := files[0..|files| - 1], files[|files| - 1];
      k := PlaceOf(front, place);
      if !After(place, last.path) {
        if k < |front| {
          assert After(place, front[k].path) && PathLess(files[k].path, last.path);
          PathsChain(place, files[k].path, last.path);
        }
        k := |files|;
      }
      assert forall j :: 0 <= j < |front| ==> files[j] == front[j];
    }
  }

  lemma SliceListed(files: seq<File>, lo: nat, hi: nat)
    requires Listed(files) && lo <= hi <= |files|
    ensures Listed(files[lo..hi])
  {
    forall i, j | 0 <= i < j < hi - lo ensures PathLess(files[lo..hi][i].path, files[lo..hi][j].path) {
      assert PathLess(files[lo + i].path, files[lo + j].path);
    }
  }

  lemma SliceEmits(files: seq<File>, lo: nat, hi: nat, e: Emitted)
    requires lo <= hi <= |files|
    ensures FromSome(files[lo..hi], 0, hi - lo, e) <==> FromSome(files, lo, hi, e)
  {
    if i :| lo <= i < hi && EmittedBy(files, i, e) { assert EmittedBy(files[lo..hi], i - lo, e); }
    if i :| 0 <= i < hi - lo && EmittedBy(files[lo..hi], i, e) { assert EmittedBy(files, lo + i, e); }
  }

  /** The record follows the one named by the position, in the same file. */
  predicate FollowsIn(files: seq<File>, at: Position, i: nat, e: Emitted)
    requires i < |files|
  {
    && at.path != "" && at.index.Some? && files[i].path == at.path
    && EmittedBy(files, i, e) && e.index > at.index.value
  }

  /** A poll has listed the record's file, which comes after the position. */
  predicate ListedAfter(files: seq<File>, at: Position, polls: seq<Option<nat>>, i: nat, e: Emitted)
    requires i < |files|
  {
    Seen(polls, i) && After(at.path, files[i].path) && EmittedBy(files, i, e)
  }

  lemma RemainderEmits(files: seq<File>, at: Position)
    requires Listed(files)
    ensures InOrder(Remainder(files, at))
    ensures forall e :: e in Remainder(files, at) <==> exists i :: 0 <= i < |files| && FollowsIn(files, at, i, e)
  {
    if at.path != "" && at.index.Some? {
      if i :| 0 <= i < |files| && files[i].path == at.path {
        FindFileAt(files, i);
        RecordsInOrder(files[i], Max(0, at.index.value + 1));
        forall e ensures e in Remainder(files, at) <==> exists i :: 0 <= i < |files| && FollowsIn(files, at, i, e) {
          if e in Remainder(files, at) { assert FollowsIn(files, at, i, e); }
          if j :| 0 <= j < |files| && FollowsIn(files, at, j, e) { FindFileAt(files, j); }
        }
      } else if FindFile(files, at.path).Some? {
        FindFileHits(files, at.path);
      }
    }
  }

  lemma {:induction false} FindFileHits(files: seq<File>, path: string)
    requires FindFile(files, path).Some?
    ensures exists i :: 0 <= i < |files| && files[i].path == path
  {
    if files[0].path != path {
      FindFileHits(files[1..], path);
      var i :| 0 <= i < |files[1..]| && files[1..][i].path == path;
      assert files[i + 1].path == path;
    }
  }

  lemma PolledEmits(files: seq<File>, at: Position, polls: seq<Option<nat>>)
    requires Listed(files) && PollsOk(files, polls)
    ensures InOrder(Polled(files, at.path, polls))
    ensures forall e :: e in Polled(files, at.path, polls)
              <==> exists i :: 0 <= i < |files| && ListedAfter(files, at, polls, i, e)
  {
    var k := PlaceOf(files, at.path);
    var r := Reach(polls, k);
    PolledIsExact(files, at.path, k, polls);
    ReachIsFurthest(polls, k);
    SliceListed(files, k, r);
    AllInOrder(files[k..r]);
    assert |files[k..r]| == r - k;
    forall e ensures e in Polled(files, at.path, polls)
           <==> exists i :: 0 <= i < |files| && ListedAfter(files, at, polls, i, e) {
      SliceEmits(files, k, r, e);
      if i :| k <= i < r && EmittedBy(files, i, e) {
        assert Some(r) in polls && After(at.path, files[i].path);
        assert ListedAfter(files, at, polls, i, e);
      }
      if i :| 0 <= i < |files| && ListedAfter(files, at, polls, i, e) { assert k <= i < r; }
    }
  }

  /** From any offset whatever, said without the emissions of a listing: a record is emitted exactly if it
      follows the offset's record in the same file, or is a well-formed one of a readable file after the
      offset's that some poll has listed; and all come in order, hence once. */
  lemma StreamsFromOffset(files: seq<File>, offset: Option<string>, polls: seq<Option<nat>>)
    requires Listed(files) && PollsOk(files, polls)
    ensures InOrder(Streamed(files, offset, polls))
    ensures var at := DecodeOffset(offset);
            forall e :: e in Streamed(files, offset, polls)
              <==> exists i :: 0 <= i < |files| && (FollowsIn(files, at, i, e) || ListedAfter(files, at, polls, i, e))
  {
    var at := DecodeOffset(offset);
    var head, tail := Remainder(files, at), Polled(files, at.path, polls);
    RemainderEmits(files, at);
    PolledEmits(files, at, polls);
    forall e, g | e in head && g in tail ensures Earlier(e, g) {
      var i :| 0 <= i < |files| && FollowsIn(files, at, i, e);
      var j :| 0 <= j < |files| && ListedAfter(files, at, polls, j, g);
    }
    OrderedConcat(head, tail);
  }

  /** How many events come before a record of file `i` when everything is emitted. */
  function Before(files: seq<File>, i: nat, index: nat): int
    requires i < |files|
  {
    |AllRecords(files[..i])| + |RecordsFrom(files[i], 0)| - |RecordsFrom(files[i], index + 1)| - 1
  }

  /** From the offset of any record ever emitted: exactly the records after it, once and in order. The
      rest of its own file comes even before that file is listed again. */
  lemma ResumeIsExact(files: seq<File>, i: nat, index: nat, polls: seq<Option<nat>>)
    requires Listed(files) && PollsOk(files, polls)
    requires i < |files| && IsRecord(files[i], index)
    ensures Reach(polls, i + 1) <= |files|
    ensures var reached, k := AllRecords(files[..Reach(polls, i + 1)]), Before(files, i, index);
            && 0 <= k < |reached| && reached[k] == Emitted(files[i].path, index)
            && Streamed(files, Some(EncodeOffset(files[i].path, index)), polls) == reached[k + 1..]
  {
    ResumedParts(files, i, index, polls);
    ReachedAfter(files, i, index, Reach(polls, i + 1));
  }

  lemma ReachedAfter(files: seq<File>, i: nat, index: nat, r: nat)
    requires i < r <= |files| && IsRecord(files[i], index)
    ensures var reached, k := AllRecords(files[..r]), Before(files, i, index);
            && 0 <= k < |reached| && reached[k] == Emitted(files[i].path, index)
            && reached[k + 1..] == RecordsFrom(files[i], index + 1) + AllRecords(files[i + 1..r])
  {
    var f := files[i];
    ReachedParts(files, i, r);
    RecordsAfter(f, 0, index);
    SuffixOf(AllRecords(files[..i]), RecordsFrom(f, 0), RecordsFrom(f, index + 1), AllRecords(files[i + 1..r]));
  }

  lemma ResumedParts(files: seq<File>, i: nat, index: nat, polls: seq<Option<nat>>)
    requires Listed(files) && PollsOk(files, polls)
    requires i < |files| && IsRecord(files[i], index)
    ensures Reach(polls, i + 1) <= |files|
    ensures Streamed(files, Some(EncodeOffset(files[i].path, index)), polls)
            == RecordsFrom(files[i], index + 1) + AllRecords(files[i + 1..Reach(polls, i + 1)])
  {
    RestStartsAt(files, i + 1);
    PolledIsExact(files, LastPath(files[..i + 1], ""), i + 1, polls);
    DecodeInvertsEncode(files[i].path, index);
    RemainderOf(files, i, index);
    assert Last(files[..i + 1]) == files[i];
  }

  lemma RemainderOf(files: seq<File>, i: nat, index: nat)
    requires Listed(files) && i < |files|
    ensures Remainder(files, Position(files[i].path, Some(index))) == RecordsFrom(files[i], index + 1)
  {
    FindFileAt(files, i);
  }

  lemma ReachedParts(files: seq<File>, i: nat, r: nat)
    requires i < r <= |files|
    ensures AllRecords(files[..r]) == AllRecords(files[..i]) + RecordsFrom(files[i], 0) + AllRecords(files[i + 1..r])
  {
    AllRecordsConcat(files[..i], files[i..r]);
    assert files[..i] + files[i..r] == files[..r];
    assert files[i..r][1..] == files[i + 1..r];
  }

  lemma SuffixOf(head: seq<Emitted>, own: seq<Emitted>, rest: seq<Emitted>, later: seq<Emitted>)
    requires |rest| < |own| && own[|own| - |rest|..] == rest
    ensures var all, k := head + own + later, |head| + |own| - |rest| - 1;
            all[k] == own[|own| - |rest| - 1] && all[k + 1..] == rest + later
  {
  }
}
