/** Starting the storage service over any memory, and what it does while a transfer is in progress. */
module StorageStart {
  import opened FixedWidth
  import opened ByteOrder
  import opened StorageAllocator
  import opened StorageMachine
  import opened StorageContents
  import opened StorageRuns

  function NoAreas(): (t: seq<Entry>)
    ensures |t| == MAX_HANDLES && forall k :: 0 <= k < |t| ==> t[k] == EMPTY
  {
    seq(MAX_HANDLES, _ => EMPTY)
  }

  /** The directory in the memory is valid. */
  predicate HasDirectory(crc: seq<Byte> -> nat, nv: seq<Byte>)
    requires |nv| == NV_SIZE
  {
    TableValid(crc, EntriesOf(nv[4..184]), WordAt(nv[184..186], 0), nv[..4])
  }

  /** Just powered on. */
  predicate Starts(s: State) {
    && s.status == Start && s.transfer == Idle && |s.nv| == NV_SIZE && |s.table| == MAX_HANDLES && |s.preamble| == 4
    && |s.header.preamble| == 4 && s.checksum < 0x1_0000
  }

  lemma ReadsDirectory(crc: seq<Byte> -> nat, s: State)
    requires Starts(s)
    ensures Ready(s)
    ensures Round(crc, s) == s.(status := CheckTable, preamble := s.nv[..4], table := EntriesOf(s.nv[4..184]), checksum := WordAt(s.nv[184..186], 0))
    ensures Ready(Round(crc, s))
  {
    hide EntriesOf;
  }

  /** A valid directory is taken as it is. */
  lemma KeepsDirectory(crc: seq<Byte> -> nat, s: State)
    requires Starts(s) && HasDirectory(crc, s.nv)
    ensures var x := Settle(crc, s, 3);
      x.status == Waiting && x.nv == s.nv && x.table == EntriesOf(s.nv[4..184]) && x.replies == s.replies
  {
    hide EntriesOf, TableChecksum, Ready;
    ReadsDirectory(crc, s);
    var s1 := Round(crc, s);
    SettlesIn2(crc, s, s1, Round(crc, s1));
  }

  lemma FormatsOnce(crc: seq<Byte> -> nat, s: State)
    requires Ready(s) && s.status == CheckTable && s.transfer == Idle && |s.header.preamble| == 4
    requires !TableValid(crc, s.table, s.checksum, s.preamble)
    ensures var sum := TableChecksum(crc, NoAreas());
      |TableImage(NoAreas(), sum, TABLE_PREAMBLE)| <= |s.nv| &&
      Round(crc, s) == s.(status := Waiting, table := NoAreas(), checksum := sum, preamble := TABLE_PREAMBLE,
                          nv := Patch(s.nv, 0, TableImage(NoAreas(), sum, TABLE_PREAMBLE)))
  {
    hide TableChecksum, Patch, EntriesImage;
    assert NoAreas() == seq(MAX_HANDLES, _ => EMPTY);
    ChecksumIs16Bit(crc, NoAreas());
  }

  lemma NoAreasIsLayout()
    ensures Layout(NoAreas()) && Kinds(NoAreas()) && !Used(EMPTY)
  {
  }

  /** Any other memory is formatted: an empty directory, nothing behind it changed, and no handle has content. */
  lemma BlankFormats(crc: seq<Byte> -> nat, s: State)
    requires Starts(s) && !HasDirectory(crc, s.nv)
    ensures var x := Settle(crc, s, 3);
      && Formatted(crc, x) && x.table == NoAreas() && x.replies == s.replies
      && (forall i :: TABLE_SIZE <= i < NV_SIZE ==> x.nv[i] == s.nv[i])
      && (forall h: nat :: h < MAX_HANDLES ==> ContentOf(crc, x, h) == Missing)
  {
    hide EntriesOf, TableChecksum, Ready, EntriesImage, Patch, Layout, Kinds, ContentAt;
    ReadsDirectory(crc, s);
    var s1 := Round(crc, s);
    FormatsOnce(crc, s1);
    var x := Round(crc, s1);
    SettlesIn2(crc, s, s1, x);
    NoAreasIsLayout();
    ImageSize(NoAreas(), TableChecksum(crc, NoAreas()), TABLE_PREAMBLE);
    PatchedFront(s.nv, TableImage(NoAreas(), TableChecksum(crc, NoAreas()), TABLE_PREAMBLE));
    assert Formatted(crc, x);
    forall h: nat | h < MAX_HANDLES ensures ContentOf(crc, x, h) == Missing {
      EntryFacts(crc, x, h);
      NoneMissing(crc, x.nv, h);
    }
  }

  lemma NoneMissing(crc: seq<Byte> -> nat, nv: seq<Byte>, h: nat)
    requires |nv| == NV_SIZE
    ensures EntryFits(EMPTY) && EntryKind(EMPTY) && ContentAt(crc, nv, EMPTY, h) == Missing
  {
  }

  lemma PatchedFront(nv: seq<Byte>, data: seq<Byte>)
    requires |data| <= |nv|
    ensures Patch(nv, 0, data)[..|data|] == data && forall i :: |data| <= i < |nv| ==> Patch(nv, 0, data)[i] == nv[i]
  {
  }

  /**
   While a transfer is in progress the service does nothing, and takes no request -- except that formatting is not
   waited for: the next turn finds the new directory valid in RAM and is ready for requests before it is written.
   */
  lemma TransferIsAwaited(crc: seq<Byte> -> nat, s: State, ready: bool, later: bool)
    requires Ready(s) && s.transfer == Idle && Service(crc, s, ready).transfer != Idle
    ensures var x := Service(crc, s, ready);
      && ready && Ready(x)
      && if x.transfer == FormatWrite then Service(crc, x, later) == x.(status := Waiting)
         else x.status != Waiting && Service(crc, x, later) == x
  {
    hide TableChecksum, Ends, Search;
    if |s.table| == MAX_HANDLES && s.status == CheckTable { ChecksumIs16Bit(crc, NoAreas()); }
    if s.status == AreaCreate { ChecksumIs16Bit(crc, Service(crc, s, ready).table); }
  }
}
