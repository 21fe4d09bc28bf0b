/** Checking an uploaded archive entry by entry, before each is written. */
module TarValidation {
  import opened Domain

  type U64 = n: nat | n < 0x1_00000000_00000000

  const U64_MAX: U64 := 0xFFFFFFFF_FFFFFFFF

  datatype EntryType = Regular | Directory | Symlink | Hardlink | Fifo | CharDevice | BlockDevice | OtherType(code: nat)

  /** The components of a path below the directory that is written to. */
  type Path = seq<string>

  datatype Node = File(content: string) | Dir

  /** What a directory holds, path by path; writing a path again replaces what was there. */
  type Tree = map<Path, Node>

  /** What writing an entry comes to; a write that fails may leave part of it. */
  datatype Unpack = Unpacked | Declined | UnpackFails(partial: Tree)

  /** What setting its mode comes to. */
  datatype Settle = ModeSet | PathUnreadable | ModeFails

  /** `path` is for messages, `at` is where the archive library puts the entry; `size` is None when the
      header's size field does not parse. */
  datatype Entry = Entry(
    path: string, at: Path, kind: EntryType, content: string, size: Option<U64>, unpack: Unpack, settle: Settle)

  /** A step of the archive iterator. */
  datatype Item = Next(entry: Entry) | Malformed

  datatype Limits = Limits(maxEntryBytes: U64, maxTotalBytes: U64)

  datatype TarError =
    | DisallowedEntryType(index: nat, path: string, kind: EntryType)
    | EntryTooLarge(index: nat, path: string, sizeBytes: U64, limitBytes: U64)
    | TotalTooLarge(limitBytes: U64)
    | UnsafeEntry(index: nat, path: string)
    | ReadFailed(index: nat)
    | ExtractFailed(index: nat, path: string)

  function SaturatingAdd(a: U64, b: U64): U64 {
    if a + b <= U64_MAX then a + b else U64_MAX
  }

  function SizeOf(item: Item): U64 {
    if item.Next? && item.entry.size.Some? then item.entry.size.value else 0
  }

  /** The true sum of the first `n` sizes. */
  function Total(items: seq<Item>, n: nat): nat
    requires n <= |items|
  {
    if n == 0 then 0 else Total(items, n - 1) + SizeOf(items[n - 1])
  }

  predicate AllowedType(entry: Entry) {
    entry.kind.Regular? || entry.kind.Directory?
  }

  /** An entry passes the checks made before it is written; `total` is the true sum up to and including it. */
  predicate Passes(item: Item, total: nat, limits: Limits) {
    && item.Next? && AllowedType(item.entry)
    && item.entry.size.Some? && item.entry.size.value <= limits.maxEntryBytes
    && (total <= limits.maxTotalBytes || limits.maxTotalBytes == U64_MAX)
  }

  /** The entry is in order, written, and its mode set. */
  predicate Accepted(items: seq<Item>, i: nat, limits: Limits)
    requires i < |items|
  {
    && Passes(items[i], Total(items, i + 1), limits)
    && items[i].entry.unpack.Unpacked? && items[i].entry.settle.ModeSet?
  }

  ghost predicate AllAccepted(items: seq<Item>, n: nat, limits: Limits)
    requires n <= |items|
  {
    forall i {:trigger items[i]} :: 0 <= i < n ==> Accepted(items, i, limits)
  }

  /** The error for an entry that is not accepted: the first of its checks to fail. */
  ghost predicate Blames(items: seq<Item>, i: nat, limits: Limits, error: TarError)
    requires i < |items|
  {
    match items[i]
    case Malformed => error == ReadFailed(i)
    case Next(e) =>
      if !AllowedType(e) then error == DisallowedEntryType(i, e.path, e.kind)
      else if e.size.None? then error == ReadFailed(i)
      else if e.size.value > limits.maxEntryBytes then error == EntryTooLarge(i, e.path, e.size.value, limits.maxEntryBytes)
      else if Total(items, i + 1) > limits.maxTotalBytes && limits.maxTotalBytes < U64_MAX then
        error == TotalTooLarge(limits.maxTotalBytes)
      else
        match e.unpack
        case UnpackFails(_) => error == ExtractFailed(i, e.path)
        case Declined => error == UnsafeEntry(i, e.path)
        case Unpacked => e.settle != ModeSet && error == (if e.settle.PathUnreadable? then ReadFailed(i) else ExtractFailed(i, e.path))
  }

  /** A path and the directories above it, up to the directory that is written to. */
  function Above(at: Path): set<Path> {
    set n | 1 <= n <= |at| :: at[..n]
  }

  /** What an entry puts in place: itself, and the directories above it. */
  function Placed(e: Entry): Tree {
    map p | p in Above(e.at) :: if p == e.at && !e.kind.Directory? then File(e.content) else Dir
  }

  /** An entry below the directory puts its own node at its path, a directory at each path above it, and
      nothing anywhere else. */
  lemma PlacedExactly(e: Entry, p: Path)
    ensures p in Placed(e) <==> 0 < |p| <= |e.at| && p == e.at[..|p|]
    ensures p in Placed(e) && p != e.at ==> Placed(e)[p] == Dir
    ensures e.at != [] ==> e.at in Placed(e) && Placed(e)[e.at] == if e.kind == Directory then Dir else File(e.content)
  {
    if e.at != [] {
      assert e.at[..|e.at|] == e.at;
    }
  }

  /** What the attempt to write an entry leaves. */
  function Written(e: Entry): Tree {
    match e.unpack
    case Unpacked => Placed(e)
    case Declined => map[]
    case UnpackFails(partial) => partial
  }

  /** What it takes for an entry to be accepted, and what each error says about the entry it blames. */
  lemma ErrorsTell(items: seq<Item>, i: nat, limits: Limits, error: TarError)
    requires i < |items|
    ensures Accepted(items, i, limits) <==>
              && items[i].Next?
              && var e := items[i].entry;
              && (e.kind == Regular || e.kind == Directory) && e.size.Some? && e.size.value <= limits.maxEntryBytes
              && (Total(items, i + 1) <= limits.maxTotalBytes || limits.maxTotalBytes == 0xFFFFFFFF_FFFFFFFF)
              && e.unpack == Unpacked && e.settle == ModeSet
    ensures Blames(items, i, limits, error) ==> !Accepted(items, i, limits)
    ensures Blames(items, i, limits, error) ==>
              match error
              case DisallowedEntryType(index, path, kind) =>
                && index == i && items[i].Next? && path == items[i].entry.path && kind == items[i].entry.kind
                && kind != Regular && kind != Directory
              case EntryTooLarge(index, path, size, limit) =>
                && index == i && items[i].Next? && path == items[i].entry.path && items[i].entry.size == Some(size)
                && limit == limits.maxEntryBytes && size > limit
              case TotalTooLarge(limit) => limit == limits.maxTotalBytes && Total(items, i + 1) > limit
              case UnsafeEntry(index, path) =>
                index == i && items[i].Next? && path == items[i].entry.path && items[i].entry.unpack == Declined
              case ReadFailed(index) =>
                index == i && (items[i].Malformed? || items[i].entry.size == None || items[i].entry.settle == PathUnreadable)
              case ExtractFailed(index, path) =>
                && index == i && items[i].Next? && path == items[i].entry.path
                && (items[i].entry.unpack.UnpackFails? || items[i].entry.settle == ModeFails)
  {
  }

  class Destination {
    var tree: Tree

    constructor ()
      ensures tree == map[]
    {
      tree := map[];
    }

    /** A removal leaves `rest`. */
    method Keep(rest: Tree)
      modifies this
      ensures tree == rest
    {
      tree := rest;
    }

    /** Returns whether the archive library accepted the entry's path. */
    method UnpackIn(entry: Entry) returns (unpacked: Result<bool, ()>)
      modifies this
      ensures tree == old(tree) + Written(entry)
      ensures unpacked == match entry.unpack { case Unpacked => Ok(true) case Declined => Ok(false) case UnpackFails(_) => Err(()) }
    {
      tree := tree + Written(entry);
      match entry.unpack {
        case Unpacked => unpacked := Ok(true);
        case Declined => unpacked := Ok(false);
        case UnpackFails(_) => unpacked := Err(());
      }
    }
  }

  /** What the first `n` entries put in place, a later one replacing an earlier one at the same path. */
  function Sent(items: seq<Item>, n: nat): Tree
    requires n <= |items| && forall i :: 0 <= i < n ==> items[i].Next?
  {
    if n == 0 then map[] else Sent(items, n - 1) + Placed(items[n - 1].entry)
  }

  /** What has been written when entry `i` is blamed: everything before it, and of itself whatever the
      attempt to write it left, if it came to that. */
  ghost predicate WrittenUpTo(items: seq<Item>, i: nat, limits: Limits, before: Tree, after: Tree)
    requires i < |items| && forall j :: 0 <= j < i ==> items[j].Next?
  {
    after == before + Sent(items, i)
             + (if Passes(items[i], Total(items, i + 1), limits) then Written(items[i].entry) else map[])
  }

  /** The running total saturates instead of overflowing; against a limit below the largest
      representable number it decides as the true sum would. */
  lemma SaturatingDecides(items: seq<Item>, n: nat, running: U64, limit: U64)
    requires n < |items| && running == (if Total(items, n) <= U64_MAX then Total(items, n) else U64_MAX)
    ensures SaturatingAdd(running, SizeOf(items[n])) == (if Total(items, n + 1) <= U64_MAX then Total(items, n + 1) else U64_MAX)
    ensures SaturatingAdd(running, SizeOf(items[n])) > limit <==> Total(items, n + 1) > limit && limit < U64_MAX
  {
  }

  /** One more entry written is one more entry sent. */
  lemma OneMoreSent(items: seq<Item>, n: nat, before: Tree)
    requires n < |items| && forall i :: 0 <= i <= n ==> items[i].Next?
    requires items[n].entry.unpack.Unpacked?
    ensures before + Sent(items, n) + Written(items[n].entry) == before + Sent(items, n + 1)
  {
  }

  lemma NothingMore(tree: Tree)
    ensures tree + map[] == tree
  {
  }

  lemma MoreAccepted(items: seq<Item>, n: nat, limits: Limits)
    requires n < |items| && AllAccepted(items, n, limits) && Accepted(items, n, limits)
    ensures AllAccepted(items, n + 1, limits)
  {
    forall i | 0 <= i < n + 1 ensures Accepted(items, i, limits) {
      var item := items[i];
    }
  }

  /** One round of the loop: checks the entry, writes it, and returns the new running total. */
  method ExtractOne(items: seq<Item>, index: nat, dest: Destination, limits: Limits, total: U64)
    returns (result: Result<U64, TarError>)
    requires index < |items|
    requires total == if Total(items, index) <= U64_MAX then Total(items, index) else U64_MAX
    modifies dest
    ensures result.Ok? <==> Accepted(items, index, limits)
    ensures result.Ok? ==> result.value == if Total(items, index + 1) <= U64_MAX then Total(items, index + 1) else U64_MAX
    ensures result.Err? ==> Blames(items, index, limits, result.error)
    ensures dest.tree == old(dest.tree) + (if Passes(items[index], Total(items, index + 1), limits)
                                           then Written(items[index].entry) else map[])
  {
    SaturatingDecides(items, index, total, limits.maxTotalBytes);
    NothingMore(dest.tree);
    match items[index] {
      case Malformed => return Err(ReadFailed(index));
      case Next(entry) =>
        if !(entry.kind.Regular? || entry.kind.Directory?) {
          return Err(DisallowedEntryType(index, entry.path, entry.kind));
        }
        if entry.size.None? {
          return Err(ReadFailed(index));
        }
        var size := entry.size.value;
        if size > limits.maxEntryBytes {
          return Err(EntryTooLarge(index, entry.path, size, limits.maxEntryBytes));
        }
        var newTotal := SaturatingAdd(total, size);
        if newTotal > limits.maxTotalBytes {
          return Err(TotalTooLarge(limits.maxTotalBytes));
        }
        var unpacked := dest.UnpackIn(entry);
        match unpacked {
          case Err(_) => return Err(ExtractFailed(index, entry.path));
          case Ok(false) => return Err(UnsafeEntry(index, entry.path));
          case Ok(true) =>
            if entry.settle.PathUnreadable? {
              return Err(ReadFailed(index));
            }
            if entry.settle.ModeFails? {
              return Err(ExtractFailed(index, entry.path));
            }
            result := Ok(newTotal);
        }
    }
  }

  /** Stops at the first entry that is not in order. */
  method ValidateAndExtract(items: seq<Item>, dest: Destination, limits: Limits) returns (result: Result<(), TarError>)
    modifies dest
    ensures result.Ok? <==> AllAccepted(items, |items|, limits)
    ensures result.Ok? ==> dest.tree == old(dest.tree) + Sent(items, |items|)
    ensures result.Err? ==>
              exists i :: && 0 <= i < |items| && AllAccepted(items, i, limits)
                          && Blames(items, i, limits, result.error)
                          && WrittenUpTo(items, i, limits, old(dest.tree), dest.tree)
  {
    var total: U64 := 0;
    NothingMore(dest.tree);
    for index := 0 to |items|
      invariant AllAccepted(items, index, limits)
      invariant total == if Total(items, index) <= U64_MAX then Total(items, index) else U64_MAX
      invariant dest.tree == old(dest.tree) + Sent(items, index)
    {
      var one := ExtractOne(items, index, dest, limits, total);
      match one {
        case Err(e) => return Err(e);
        case Ok(newTotal) => total := newTotal;
      }
      MoreAccepted(items, index, limits);
      OneMoreSent(items, index, old(dest.tree));
    }
    result := Ok(());
  }

  /** Success bounds the upload: files and directories only, each within its cap, and together within
      the total cap, as a true sum, unless that cap is the largest representable number. */
  lemma SuccessBoundsUpload(items: seq<Item>, limits: Limits)
    requires AllAccepted(items, |items|, limits)
    ensures forall i :: 0 <= i < |items| ==>
              && items[i].Next? && (items[i].entry.kind == Regular || items[i].entry.kind == Directory)
              && items[i].entry.size.Some? && items[i].entry.size.value <= limits.maxEntryBytes
    ensures Total(items, |items|) <= |items| * limits.maxEntryBytes
    ensures Total(items, |items|) <= limits.maxTotalBytes || limits.maxTotalBytes == U64_MAX
  {
    TotalBounded(items, |items|, limits.maxEntryBytes);
    if items != [] {
      var last := items[|items| - 1];
      assert Accepted(items, |items| - 1, limits);
    }
  }

  lemma {:induction false} TotalBounded(items: seq<Item>, n: nat, cap: U64)
    requires n <= |items| && forall i :: 0 <= i < n ==> SizeOf(items[i]) <= cap
    ensures Total(items, n) <= n * cap
  {
    if n == 0 {
    } else {
      TotalBounded(items, n - 1, cap);
      assert n * cap == (n - 1) * cap + cap;
    }
  }

  /** With the total cap at the largest representable number, saturation lets a larger sum through. */
  lemma SaturationIsTheOnlyGap()
    ensures var e := Entry("blob", ["blob"], Regular, "", Some(U64_MAX), Unpacked, ModeSet);
            var items := [Next(e), Next(e)];
            var limits := Limits(U64_MAX, U64_MAX);
            && AllAccepted(items, |items|, limits)
            && Total(items, |items|) > limits.maxTotalBytes
  {
  }
}
