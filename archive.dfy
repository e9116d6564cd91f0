/** The member-header walk of `ParseFile` over an archive (library) file, in
    the layout of the Microsoft PE/COFF specification, section "Archive
    (Library) File Format": the signature, then members, each a 60-byte
    header followed by its data and a padding byte when the data has odd
    length. */
module Archive {
  import opened Common
  import opened Decimal
  import opened Coff

  /** Offsets of the two header fields that are read. */
  const NAME_FIELD_SIZE: nat := 16
  const SIZE_FIELD_OFFSET: nat := 48
  const SIZE_FIELD_SIZE: nat := 10
  /** The largest size the Size field can hold, plus one. */
  const SIZE_FIELD_LIMIT: nat := 10_000_000_000

  /** A member the walk stepped over: where its header starts, the header's
      Name field and the size read from its Size field. */
  datatype MemberRef = MemberRef(pos: nat, name: seq<Byte>, size: nat) {
    function DataStart(): nat {
      pos + MEMBER_HEADER_SIZE
    }
    /** The next header: past the data and the padding to an even offset. */
    function Next(): nat {
      pos + MEMBER_HEADER_SIZE + size + size % 2
    }
  }

  /** Why the walk ended. */
  datatype WalkStop =
    | Exhausted    // fewer than 60 bytes left for a header
    | InvalidSize  // the Size field is not a decimal number
    | OutOfBounds  // the member would end past the end of the buffer

  /** The Size field of the header at `pos`: trailing blanks removed, then
      read with `from_chars`. */
  function MemberSize(data: seq<Byte>, pos: nat): (size: Option<nat>)
    requires pos + MEMBER_HEADER_SIZE <= |data|
    ensures size.Some? ==> size.value < SIZE_T_LIMIT
  {
    FromChars(RemoveSpaces(Chars(data[pos + SIZE_FIELD_OFFSET .. pos + SIZE_FIELD_OFFSET + SIZE_FIELD_SIZE])))
  }

  /** The walk from the header at `pos`: the members stepped over, in file
      order, and the reason it stopped. */
  function Walk(data: seq<Byte>, pos: nat): (seq<MemberRef>, WalkStop)
    decreases |data| - pos
  {
    if pos + MEMBER_HEADER_SIZE > |data| then ([], Exhausted)
    else match MemberSize(data, pos)
      case None => ([], InvalidSize)
      case Some(size) =>
        var m := MemberRef(pos, data[pos .. pos + NAME_FIELD_SIZE], size);
        if m.Next() > |data| then ([], OutOfBounds)
        else
          var rest := Walk(data, m.Next());
          ([m] + rest.0, rest.1)
  }

  /** The walk starts at `pos`, stays inside the buffer, steps from each
      member straight to the next header and reads 16-byte names. */
  lemma {:induction false} WalkShape(data: seq<Byte>, pos: nat)
    ensures var ms := Walk(data, pos).0;
      && (|ms| > 0 ==> ms[0].pos == pos)
      && (forall k :: 0 <= k < |ms| ==> pos <= ms[k].pos && ms[k].Next() <= |data|)
      && (forall k :: 0 <= k < |ms| - 1 ==> ms[k + 1].pos == ms[k].Next())
      && (forall k :: 0 <= k < |ms| ==> |ms[k].name| == NAME_FIELD_SIZE)
    decreases |data| - pos
  {
    if pos + MEMBER_HEADER_SIZE <= |data| && MemberSize(data, pos).Some? {
      var m := MemberRef(pos, data[pos .. pos + NAME_FIELD_SIZE], MemberSize(data, pos).value);
      if m.Next() <= |data| {
        WalkShape(data, m.Next());
        var rest := Walk(data, m.Next()).0;
        var ms := Walk(data, pos).0;
        assert ms == [m] + rest;
        forall k | 0 < k < |ms|
          ensures ms[k] == rest[k - 1]
        {
        }
      }
    }
  }

  /** Where the walk from `pos` ended: the header offset it could not step
      over. */
  function StopPos(data: seq<Byte>, pos: nat): nat {
    var ms := Walk(data, pos).0;
    if |ms| == 0 then pos else ms[|ms| - 1].Next()
  }

  /** Header offsets strictly increase: every member starts after the
      previous one's data. */
  lemma WalkIncreasing(data: seq<Byte>, pos: nat, j: nat, k: nat)
    requires j < k < |Walk(data, pos).0|
    ensures Walk(data, pos).0[j].pos < Walk(data, pos).0[k].pos
    decreases k - j
  {
    WalkShape(data, pos);
    if j + 1 < k {
      WalkIncreasing(data, pos, j + 1, k);
    }
  }

  /** The walk stops exactly in the three cases of the source, at the
      first header it cannot step over. */
  lemma {:induction false} WalkStopReason(data: seq<Byte>, pos: nat)
    ensures var q := StopPos(data, pos);
      var stop := Walk(data, pos).1;
      && (stop == Exhausted <==> q + MEMBER_HEADER_SIZE > |data|)
      && (stop == InvalidSize <==> q + MEMBER_HEADER_SIZE <= |data| && MemberSize(data, q).None?)
      && (stop == OutOfBounds <==>
            q + MEMBER_HEADER_SIZE <= |data| && MemberSize(data, q).Some?
            && q + MEMBER_HEADER_SIZE + MemberSize(data, q).value + MemberSize(data, q).value % 2 > |data|)
    decreases |data| - pos
  {
    if pos + MEMBER_HEADER_SIZE <= |data| && MemberSize(data, pos).Some? {
      var size := MemberSize(data, pos).value;
      var m := MemberRef(pos, data[pos .. pos + NAME_FIELD_SIZE], size);
      if m.Next() <= |data| {
        WalkStopReason(data, m.Next());
        var rest := Walk(data, m.Next()).0;
        assert Walk(data, pos).0 == [m] + rest;
        assert StopPos(data, pos) == StopPos(data, m.Next());
      }
    }
  }

  // ---------------------------------------------------------------------
  // What an archiver writes, and the walk reading it back.

  /** A member as an archiver stores it: the 16-byte Name field, the 32
      bytes of the Date, UID, GID and Mode fields, and the data. */
  datatype Member = Member(name: seq<Byte>, meta: seq<Byte>, body: seq<Byte>)

  predicate WellFormed(m: Member) {
    |m.name| == NAME_FIELD_SIZE && |m.meta| == 32 && |m.body| < SIZE_FIELD_LIMIT
  }

  function Spaces(n: nat): seq<Byte> {
    seq(n, _ => 0x20)
  }

  /** The decimal text of `n` as bytes. */
  function DecimalBytes(n: nat): (bs: seq<Byte>)
    ensures Chars(bs) == NatToDec(n)
  {
    var t := NatToDec(n);
    var bs := seq(|t|, i requires 0 <= i < |t| => t[i] as int);
    assert forall i :: 0 <= i < |t| ==> IsDigit(t[i]);
    bs
  }

  /** The Size field: the decimal size, left-justified and blank-padded. */
  function SizeField(n: nat): (f: seq<Byte>)
    requires n < SIZE_FIELD_LIMIT
    ensures |f| == SIZE_FIELD_SIZE
  {
    SizeFieldDigits(n);
    DecimalBytes(n) + Spaces(SIZE_FIELD_SIZE - |NatToDec(n)|)
  }

  /** The 60-byte header: Name, Date/UID/GID/Mode, Size and the "`\n" end
      marker. */
  function Header(m: Member): (h: seq<Byte>)
    requires WellFormed(m)
    ensures |h| == MEMBER_HEADER_SIZE
  {
    m.name + m.meta + SizeField(|m.body|) + [0x60, 0x0A]
  }

  function EncodeMember(m: Member): (bs: seq<Byte>)
    requires WellFormed(m)
    ensures |bs| == MEMBER_HEADER_SIZE + |m.body| + |m.body| % 2
  {
    Header(m) + m.body + (if |m.body| % 2 == 1 then [0x0A] else [])
  }

  function EncodeMembers(ms: seq<Member>): seq<Byte>
    requires forall k :: 0 <= k < |ms| ==> WellFormed(ms[k])
  {
    if |ms| == 0 then [] else EncodeMember(ms[0]) + EncodeMembers(ms[1..])
  }

  /** An archive file holding `ms`. */
  function EncodeArchive(ms: seq<Member>): seq<Byte>
    requires forall k :: 0 <= k < |ms| ==> WellFormed(ms[k])
  {
    ARCHIVE_START + EncodeMembers(ms)
  }

  /** What the walk sees of member `m` at `r`: same name, same size and the
      same data bytes. */
  predicate ReadsBack(data: seq<Byte>, r: MemberRef, m: Member) {
    && r.name == m.name
    && r.size == |m.body|
    && r.DataStart() + r.size <= |data|
    && data[r.DataStart() .. r.DataStart() + r.size] == m.body
  }

  lemma RemoveSpacesOfPadded(t: string, n: nat)
    requires |t| > 0 && !IsSpace(t[|t| - 1])
    ensures RemoveSpaces(t + Chars(Spaces(n))) == t
  {
    if n > 0 {
      assert t + Chars(Spaces(n)) == (t + Chars(Spaces(n - 1))) + [' '];
      RemoveSpacesOfPadded(t, n - 1);
    } else {
      assert t + Chars(Spaces(n)) == t;
    }
  }

  lemma CharsAppend(a: seq<Byte>, b: seq<Byte>)
    ensures Chars(a + b) == Chars(a) + Chars(b)
  {
  }

  /** The Size field written for `n` reads back as `n`. */
  lemma SizeFieldDigits(n: nat)
    requires n < SIZE_FIELD_LIMIT
    ensures |NatToDec(n)| <= SIZE_FIELD_SIZE
  {
    assert Pow10(SIZE_FIELD_SIZE) == SIZE_FIELD_LIMIT;
    NatToDecLength(n, SIZE_FIELD_SIZE);
  }

  lemma SizeFieldReadsBack(n: nat)
    requires n < SIZE_FIELD_LIMIT
    ensures FromChars(RemoveSpaces(Chars(SizeField(n)))) == Some(n)
  {
    SizeFieldDigits(n);
    var t := NatToDec(n);
    var pad := SIZE_FIELD_SIZE - |t|;
    assert Chars(SizeField(n)) == t + Chars(Spaces(pad)) by {
      CharsAppend(DecimalBytes(n), Spaces(pad));
    }
    assert !IsSpace(t[|t| - 1]) by {
      assert IsDigit(t[|t| - 1]);
    }
    RemoveSpacesOfPadded(t, pad);
    assert t + "" == t;
    FromCharsOfNatToDec(n, "");
  }

  /** The bytes of `b` inside `a + b + c`. */
  lemma SliceMiddle(a: seq<Byte>, b: seq<Byte>, c: seq<Byte>, i: nat, j: nat)
    requires i <= j <= |b|
    ensures (a + b + c)[|a| + i .. |a| + j] == b[i..j]
  {
  }

  /** The header of an encoded member lies at the start of its encoding. */
  lemma EncodedHeader(prefix: seq<Byte>, m: Member, rest: seq<Byte>, i: nat, j: nat)
    requires WellFormed(m) && i <= j <= MEMBER_HEADER_SIZE
    ensures (prefix + EncodeMember(m) + rest)[|prefix| + i .. |prefix| + j] == Header(m)[i..j]
  {
    var e := EncodeMember(m);
    var tail := m.body + (if |m.body| % 2 == 1 then [0x0A] else []);
    SliceMiddle(prefix, e, rest, i, j);
    assert e == [] + Header(m) + tail;
    SliceMiddle([], Header(m), tail, i, j);
  }

  /** The Size field of an encoded member reads back as its data length. */
  lemma WalkSizeField(prefix: seq<Byte>, m: Member, rest: seq<Byte>)
    requires WellFormed(m)
    ensures var data := prefix + EncodeMember(m) + rest;
      |prefix| + MEMBER_HEADER_SIZE <= |data| && MemberSize(data, |prefix|) == Some(|m.body|)
  {
    var h := Header(m);
    EncodedHeader(prefix, m, rest, SIZE_FIELD_OFFSET, SIZE_FIELD_OFFSET + SIZE_FIELD_SIZE);
    assert h == (m.name + m.meta) + SizeField(|m.body|) + [0x60, 0x0A];
    SliceMiddle(m.name + m.meta, SizeField(|m.body|), [0x60, 0x0A], 0, SIZE_FIELD_SIZE);
    SizeFieldReadsBack(|m.body|);
  }

  /** The Name field of an encoded member is its name. */
  lemma WalkNameField(prefix: seq<Byte>, m: Member, rest: seq<Byte>)
    requires WellFormed(m)
    ensures var data := prefix + EncodeMember(m) + rest;
      |prefix| + NAME_FIELD_SIZE <= |data| && data[|prefix| .. |prefix| + NAME_FIELD_SIZE] == m.name
  {
    var h := Header(m);
    EncodedHeader(prefix, m, rest, 0, NAME_FIELD_SIZE);
    assert h == [] + m.name + (m.meta + SizeField(|m.body|) + [0x60, 0x0A]);
    SliceMiddle([], m.name, m.meta + SizeField(|m.body|) + [0x60, 0x0A], 0, NAME_FIELD_SIZE);
  }

  /** The data of an encoded member follows its header. */
  lemma WalkBody(prefix: seq<Byte>, m: Member, rest: seq<Byte>)
    requires WellFormed(m)
    ensures var data := prefix + EncodeMember(m) + rest;
      var start := |prefix| + MEMBER_HEADER_SIZE;
      start + |m.body| <= |data| && data[start .. start + |m.body|] == m.body
  {
    var e := EncodeMember(m);
    var pad: seq<Byte> := if |m.body| % 2 == 1 then [0x0A] else [];
    SliceMiddle(prefix, e, rest, MEMBER_HEADER_SIZE, MEMBER_HEADER_SIZE + |m.body|);
    SliceMiddle(Header(m), m.body, pad, 0, |m.body|);
  }

  /** The walk over an encoded member steps over it, reading it back, and
      goes on at the end of its encoding. */
  lemma WalkHead(prefix: seq<Byte>, m: Member, rest: seq<Byte>)
    requires WellFormed(m)
    ensures var data := prefix + EncodeMember(m) + rest;
      var r := MemberRef(|prefix|, m.name, |m.body|);
      && r.Next() == |prefix + EncodeMember(m)|
      && Walk(data, |prefix|) == ([r] + Walk(data, r.Next()).0, Walk(data, r.Next()).1)
      && ReadsBack(data, r, m)
  {
    WalkSizeField(prefix, m, rest);
    WalkNameField(prefix, m, rest);
    WalkBody(prefix, m, rest);
  }

  /** Walking the encoding of `ms`, placed after any prefix, finds exactly
      the members of `ms`, in order, and stops only at the end of the
      buffer. */
  lemma {:induction false} WalkEncoded(prefix: seq<Byte>, ms: seq<Member>)
    requires forall k :: 0 <= k < |ms| ==> WellFormed(ms[k])
    ensures var data := prefix + EncodeMembers(ms);
      var w := Walk(data, |prefix|);
      && |w.0| == |ms|
      && w.1 == Exhausted
      && forall k :: 0 <= k < |ms| ==> ReadsBack(data, w.0[k], ms[k])
    decreases |ms|
  {
    var data := prefix + EncodeMembers(ms);
    if |ms| == 0 {
      assert data == prefix;
    } else {
      var m := ms[0];
      var rest := EncodeMembers(ms[1..]);
      var prefix' := prefix + EncodeMember(m);
      assert data == prefix + EncodeMember(m) + rest;
      assert data == prefix' + rest;
      WalkHead(prefix, m, rest);
      WalkEncoded(prefix', ms[1..]);
      var w := Walk(data, |prefix|).0;
      var w' := Walk(data, |prefix'|).0;
      forall k | 0 <= k < |ms|
        ensures ReadsBack(data, w[k], ms[k])
      {
        if k > 0 {
          assert w[k] == w'[k - 1];
          assert ms[k] == ms[1..][k - 1];
        }
      }
    }
  }

  /** An archive written from `ms` is accepted as a library and its walk
      yields exactly `ms`. */
  lemma ArchiveRoundTrip(ms: seq<Member>)
    requires forall k :: 0 <= k < |ms| ==> WellFormed(ms[k])
    ensures var data := EncodeArchive(ms);
      var w := Walk(data, ARCHIVE_START_SIZE);
      && IsLibFile(data)
      && |w.0| == |ms|
      && w.1 == Exhausted
      && forall k :: 0 <= k < |ms| ==> ReadsBack(data, w.0[k], ms[k])
  {
    WalkEncoded(ARCHIVE_START, ms);
    assert EncodeArchive(ms)[..ARCHIVE_START_SIZE] == ARCHIVE_START;
  }
}
