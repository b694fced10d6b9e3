/**
  The two walks over the version-needs records of an ELF file (Linux Standard Base Core, "Symbol
  Versioning", Version Requirements): one starts from the dynamic segment and counts records, the
  other starts from the section and stays inside it.
 */
module VersionNeeds {
  import opened Basics

  type Name = seq<Byte>

  /** Both Elf64_Verneed and Elf64_Vernaux records take 16 bytes. */
  const RECORD := 16
  const MAX_RECORDS := 4096
  const MAX_NEXT := 16 * 1024 * 1024

  // ---------- Version names ----------

  const GLIBC: Name := [71, 76, 73, 66, 67, 95]
  const GCC: Name := [71, 67, 67, 95]
  const DOT: Byte := 46

  function Split(s: Name): (fields: seq<Name>)
    ensures fields != []
  {
    if s == [] then [[]]
    else
      var rest := Split(s[1..]);
      if s[0] == DOT then [[]] + rest else [[s[0]] + rest[0]] + rest[1..]
  }

  predicate AllNumbers(fields: seq<Name>) {
    forall f <- fields :: f != [] && forall b <- f :: 48 <= b <= 57
  }

  predicate IsGlibc(name: Name) {
    GLIBC <= name && AllNumbers(Split(name[|GLIBC|..])) && |Split(name[|GLIBC|..])| in {2, 3}
  }

  predicate IsVersion(name: Name) {
    IsGlibc(name) || (GCC <= name && AllNumbers(Split(name[|GCC|..])))
  }

  // ---------- Reading ----------

  /** Elf64_Verneed: version, number of auxiliary records, file name, offsets to them and to the next record. */
  datatype Need = Need(version: nat, count: nat, file: nat, aux: nat, next: nat)

  /** Elf64_Vernaux: the version name and the offset to the next auxiliary record. */
  datatype Aux = Aux(name: nat, next: nat)

  /** A file as the walks read it: records by file offset, strings by offset into one string table. */
  datatype Layout = Layout(
    length: nat,
    need: nat --> Need,
    aux: nat --> Aux,
    file: nat -> Option<Name>,
    version: nat -> Option<Name>)
  {
    /** A whole record at this offset lies inside the file. */
    predicate Has(at: nat) {
      at + RECORD <= length
    }

    ghost predicate Readable() {
      forall at: nat | Has(at) :: need.requires(at) && aux.requires(at)
    }
  }

  /** Records can be read inside the file, and nothing is promised outside it. */
  type Image = f: Layout | f.Readable()
    ghost witness Layout(0, (at: nat) => Need(0, 0, 0, 0, 0), (at: nat) => Aux(0, 0), (at: nat) => None, (at: nat) => None)

  function U16(data: seq<Byte>, at: nat): nat
    requires at + 2 <= |data|
  {
    data[at] as int + 256 * data[at + 1] as int
  }

  function U32(data: seq<Byte>, at: nat): nat
    requires at + 4 <= |data|
  {
    U16(data, at) + 65536 * U16(data, at + 2)
  }

  function NulAt(raw: seq<Byte>): (k: nat)
    ensures k <= |raw|
  {
    if raw == [] || raw[0] == 0 then 0 else 1 + NulAt(raw[1..])
  }

  function CString(data: seq<Byte>, offset: nat, limit: nat): Option<Name> {
    if offset + limit > |data| then None
    else
      var raw := data[offset..offset + limit];
      var value := raw[..NulAt(raw)];
      if NulAt(raw) == |raw| || value == [] || exists b <- value :: b < 0x21 || b > 0x7E then None else Some(value)
  }

  function NameAt(data: seq<Byte>, strings: nat, size: nat, at: nat): Option<Name> {
    if at >= size then None else CString(data, strings + at, size - at)
  }

  /** The bytes of a file with the string table of `size` bytes at `strings`. */
  function Load(data: seq<Byte>, strings: nat, size: nat): Image {
    var f := Layout(|data|,
                    (at: nat) requires at + RECORD <= |data| => ReadNeed(data, at),
                    (at: nat) requires at + RECORD <= |data| => ReadAux(data, at),
                    (at: nat) => NameAt(data, strings, size, at),
                    (at: nat) => ReadVersion(data, strings, size, at));
    assert f.Readable();
    f
  }

  function ReadNeed(data: seq<Byte>, at: nat): Need
    requires at + RECORD <= |data|
  {
    Need(U16(data, at), U16(data, at + 2), U32(data, at + 4), U32(data, at + 8), U32(data, at + 12))
  }

  function ReadAux(data: seq<Byte>, at: nat): Aux
    requires at + RECORD <= |data|
  {
    Aux(U32(data, at + 8), U32(data, at + 12))
  }

  function ReadVersion(data: seq<Byte>, strings: nat, size: nat, at: nat): Option<Name> {
    var name := NameAt(data, strings, size, at);
    if name.Some? && IsVersion(name.value) then name else None
  }

  // ---------- Both walks, specified ----------

  predicate Canonical(need: Need) {
    need.version == 1 && 0 < need.count <= MAX_RECORDS
  }

  function VersionAt(f: Image, at: nat): (name: Option<Name>)
    ensures name.Some? ==> f.Has(at)
  {
    if f.Has(at) then f.version(f.aux(at).name) else None
  }

  /** Exactly `count` auxiliary records from `at`, the last one and no other ending the list. */
  function DynamicAux(f: Image, at: nat, count: nat, found: set<Name>): Option<set<Name>>
    requires count > 0
    decreases count
  {
    var name := VersionAt(f, at);
    if name.None? then None else
    var next := f.aux(at).next;
    if count == 1 then (if next == 0 then Some(found + {name.value}) else None)
    else if next < RECORD then None
    else DynamicAux(f, at + next, count - 1, found + {name.value})
  }

  predicate FileNeeded(f: Image, needed: set<Name>, at: nat)
    requires f.Has(at)
  {
    var file := f.file(f.need(at).file); file.Some? && file.value in needed
  }

  /** Exactly `count` records from `at`, again ended by the last one and no other. */
  function DynamicNeeds(f: Image, needed: set<Name>, at: nat, count: nat, found: set<Name>): Option<set<Name>>
    requires count > 0
    decreases count
  {
    if !f.Has(at) then None else
    var need := f.need(at);
    if !Canonical(need) || !FileNeeded(f, needed, at) then None
    else
      match DynamicAux(f, at + need.aux, need.count, found)
      case None => None
      case Some(more) =>
        if count == 1 then (if need.next == 0 then Some(more) else None)
        else if need.next < RECORD || need.next > MAX_NEXT then None
        else DynamicNeeds(f, needed, at + need.next, count - 1, more)
  }

  /** Auxiliary records at offsets from `base`, inside `limit`; running out of `count` also ends the list. */
  function SectionAux(f: Image, base: nat, limit: nat, cursor: nat, count: nat, found: set<Name>): Option<set<Name>>
    requires count > 0
    decreases count
  {
    var name := VersionAt(f, base + cursor);
    if cursor + RECORD > limit || name.None? then None else
    var next := f.aux(base + cursor).next;
    if next == 0 then (if count == 1 then Some(found + {name.value}) else None)
    else if next < RECORD then None
    else if count == 1 then Some(found + {name.value})
    else SectionAux(f, base, limit, cursor + next, count - 1, found + {name.value})
  }

  /** What one record of the section leads to. */
  datatype Progress = Refused | Done(names: set<Name>) | Onward(cursor: nat, names: set<Name>)

  function SectionRecord(f: Image, start: nat, size: nat, cursor: nat, seen: nat, found: set<Name>): (p: Progress)
    requires cursor < size
    ensures p.Onward? ==> cursor < p.cursor
  {
    if cursor + RECORD > size || seen > MAX_RECORDS || !f.Has(start + cursor) then Refused else
    var need := f.need(start + cursor);
    if !Canonical(need) then Refused
    else
      match SectionAux(f, start + cursor, size - cursor, need.aux, need.count, found)
      case None => Refused
      case Some(more) =>
        if need.next == 0 then Done(more)
        else if need.next < RECORD then Refused
        else Onward(cursor + need.next, more)
  }

  /** Records at offsets inside the section, until one ends the list or the section does. */
  function SectionNeeds(f: Image, start: nat, size: nat, cursor: nat, seen: nat, found: set<Name>): Option<set<Name>>
    decreases size - cursor
  {
    if cursor >= size then Some(found)
    else match SectionRecord(f, start, size, cursor, seen, found)
         case Refused => None
         case Done(names) => Some(names)
         case Onward(next, names) => SectionNeeds(f, start, size, next, seen + 1, names)
  }

  lemma SectionStep(f: Image, start: nat, size: nat, cursor: nat, seen: nat, found: set<Name>, p: Progress)
    requires cursor < size && p == SectionRecord(f, start, size, cursor, seen, found)
    ensures SectionNeeds(f, start, size, cursor, seen, found)
      == match p
         case Refused => None
         case Done(names) => Some(names)
         case Onward(next, names) => SectionNeeds(f, start, size, next, seen + 1, names)
  {
  }

  // ---------- The loops ----------

  method WalkDynamicAux(f: Image, start: nat, count: nat, found: set<Name>) returns (r: Option<set<Name>>)
    requires count > 0
    ensures r == DynamicAux(f, start, count, found)
  {
    var versions := found;
    var cursor: nat := start;
    var visited: set<nat> := {};
    ghost var whole := DynamicAux(f, start, count, found);
    for index := 0 to count
      invariant forall v <- visited :: v < cursor || index == count
      invariant index < count ==> whole == DynamicAux(f, cursor, count - index, versions)
      invariant index == count ==> whole == Some(versions)
    {
      assert cursor !in visited; // the check for a looping list never fires
      visited := visited + {cursor};
      if !f.Has(cursor) {
        return None;
      }
      var name := f.version(f.aux(cursor).name);
      if name.None? {
        return None;
      }
      versions := versions + {name.value};
      var next := f.aux(cursor).next;
      if index == count - 1 {
        if next != 0 {
          return None;
        }
      } else {
        if next < RECORD {
          return None;
        }
        cursor := cursor + next;
      }
    }
    r := Some(versions);
  }

  method WalkDynamic(f: Image, needed: set<Name>, start: nat, count: nat) returns (r: Option<set<Name>>)
    requires 0 < count <= MAX_RECORDS
    ensures r == DynamicNeeds(f, needed, start, count, {})
  {
    var versions: set<Name> := {};
    var offset: nat := start;
    var visited: set<nat> := {};
    ghost var whole := DynamicNeeds(f, needed, start, count, {});
    for index := 0 to count
      invariant forall v <- visited :: v < offset || index == count
      invariant index < count ==>
        whole == DynamicNeeds(f, needed, offset, count - index, versions)
      invariant index == count ==> whole == Some(versions)
    {
      assert offset !in visited; // the check for a looping list never fires
      visited := visited + {offset};
      if !f.Has(offset) {
        return None;
      }
      var need := f.need(offset);
      if !Canonical(need) {
        return None;
      }
      var file := f.file(need.file);
      if file.None? || file.value !in needed {
        return None;
      }
      var more := WalkDynamicAux(f, offset + need.aux, need.count, versions);
      if more.None? {
        return None;
      }
      versions := more.value;
      if index == count - 1 {
        if need.next != 0 {
          return None;
        }
      } else {
        if need.next < RECORD || need.next > MAX_NEXT {
          return None;
        }
        offset := offset + need.next;
      }
    }
    r := Some(versions);
  }

  method WalkSectionAux(f: Image, base: nat, limit: nat, start: nat, count: nat, found: set<Name>)
    returns (r: Option<set<Name>>)
    requires count > 0
    ensures r == SectionAux(f, base, limit, start, count, found)
  {
    var versions := found;
    var cursor: nat := start;
    var visited: set<nat> := {};
    ghost var whole := SectionAux(f, base, limit, start, count, found);
    for index := 0 to count
      invariant |visited| == index && forall v <- visited :: v < cursor
      invariant index < count ==>
        whole == SectionAux(f, base, limit, cursor, count - index, versions)
      invariant index == count ==> whole == Some(versions)
    {
      if cursor + RECORD > limit {
        return None;
      }
      assert cursor !in visited; // the check for a looping list never fires
      visited := visited + {cursor};
      if !f.Has(base + cursor) {
        return None;
      }
      var name := f.version(f.aux(base + cursor).name);
      if name.None? {
        return None;
      }
      versions := versions + {name.value};
      var next := f.aux(base + cursor).next;
      if next == 0 {
        return if |visited| != count then None else Some(versions);
      }
      if next < RECORD {
        return None;
      }
      cursor := cursor + next;
    }
    r := Some(versions);
  }

  /** The body of the section loop; `seen` records were visited before. */
  method ReadSectionRecord(f: Image, start: nat, size: nat, cursor: nat, seen: nat, found: set<Name>) returns (p: Progress)
    requires cursor < size
    ensures p == SectionRecord(f, start, size, cursor, seen, found)
  {
    if cursor + RECORD > size {
      return Refused;
    }
    if seen > MAX_RECORDS {
      return Refused;
    }
    if !f.Has(start + cursor) {
      return Refused;
    }
    var need := f.need(start + cursor);
    if !Canonical(need) {
      return Refused;
    }
    var more := WalkSectionAux(f, start + cursor, size - cursor, need.aux, need.count, found);
    if more.None? {
      return Refused;
    }
    if need.next == 0 {
      return Done(more.value);
    }
    if need.next < RECORD {
      return Refused;
    }
    p := Onward(cursor + need.next, more.value);
  }

  method WalkSection(f: Image, start: nat, size: nat) returns (r: Option<set<Name>>)
    ensures r == SectionNeeds(f, start, size, 0, 0, {})
  {
    var versions: set<Name> := {};
    var cursor: nat := 0;
    var visited: set<nat> := {};
    ghost var whole, seen := SectionNeeds(f, start, size, 0, 0, {}), 0;
    while cursor < size
      invariant |visited| == seen && forall v <- visited :: v < cursor
      invariant whole == SectionNeeds(f, start, size, cursor, seen, versions)
    {
      assert cursor !in visited; // the check for a looping list never fires
      var p := ReadSectionRecord(f, start, size, cursor, |visited|, versions);
      SectionStep(f, start, size, cursor, seen, versions, p);
      match p {
        case Refused => return None;
        case Done(names) => return Some(names);
        case Onward(next, names) =>
          visited, seen := visited + {cursor}, seen + 1;
          cursor, versions := next, names;
      }
    }
    r := Some(versions);
  }

  // ---------- Agreement ----------

  /** The `count` auxiliary records from `at`, as far as the file has them, end at or before `end`. */
  predicate AuxInside(f: Image, at: nat, count: nat, end: nat)
    decreases count
  {
    count > 0 ==>
      && at + RECORD <= end
      && (f.Has(at) && f.aux(at).next >= RECORD ==> AuxInside(f, at + f.aux(at).next, count - 1, end))
  }

  /** The section covers the chain: its records and their auxiliary records end at or before `end`. */
  predicate Covered(f: Image, at: nat, count: nat, end: nat)
    decreases count
  {
    count > 0 ==>
      && at + RECORD <= end
      && (f.Has(at) ==>
            && AuxInside(f, at + f.need(at).aux, f.need(at).count, end)
            && (f.need(at).next >= RECORD ==> Covered(f, at + f.need(at).next, count - 1, end)))
  }

  /** The auxiliary list has a terminator after exactly `count` records. */
  predicate AuxTerminated(f: Image, at: nat, count: nat)
    decreases count
  {
    && count > 0 && f.Has(at)
    && if count == 1 then f.aux(at).next == 0 else AuxTerminated(f, at + f.aux(at).next, count - 1)
  }

  /** What only the dynamic walk asks for: file names, terminators after exactly the stated counts, close records. */
  predicate Attested(f: Image, needed: set<Name>, at: nat, count: nat)
    decreases count
  {
    && count > 0 && f.Has(at) && FileNeeded(f, needed, at)
    && AuxTerminated(f, at + f.need(at).aux, f.need(at).count)
    && if count == 1 then f.need(at).next == 0
       else 0 < f.need(at).next <= MAX_NEXT && Attested(f, needed, at + f.need(at).next, count - 1)
  }

  lemma {:induction false} AuxWalksAgree(f: Image, base: nat, limit: nat, cursor: nat, count: nat,
                                         found: set<Name>)
    requires count > 0 && AuxInside(f, base + cursor, count, base + limit)
    ensures DynamicAux(f, base + cursor, count, found)
      == if AuxTerminated(f, base + cursor, count) then SectionAux(f, base, limit, cursor, count, found) else None
    decreases count
  {
    var at := base + cursor;
    if VersionAt(f, at).Some? && count > 1 && f.aux(at).next >= RECORD {
      var next := f.aux(at).next;
      assert at + next == base + (cursor + next);
      AuxWalksAgree(f, base, limit, cursor + next, count - 1, found + {VersionAt(f, at).value});
    }
  }

  /**
    Over the same bytes and strings, and a section that covers the chain, the dynamic walk accepts
    exactly when the section walk accepts and the chain is attested, and then both collect the
    same version names.
   */
  lemma {:induction false} WalksAgree(f: Image, needed: set<Name>, start: nat, size: nat, cursor: nat, seen: nat,
                                      count: nat, found: set<Name>)
    requires 0 < count && seen + count <= MAX_RECORDS + 1
    requires Covered(f, start + cursor, count, start + size)
    ensures DynamicNeeds(f, needed, start + cursor, count, found)
      == if Attested(f, needed, start + cursor, count) then SectionNeeds(f, start, size, cursor, seen, found) else None
    decreases count
  {
    var at := start + cursor;
    SectionStep(f, start, size, cursor, seen, found, SectionRecord(f, start, size, cursor, seen, found));
    if f.Has(at) && Canonical(f.need(at)) {
      var need := f.need(at);
      AuxWalksAgree(f, at, size - cursor, need.aux, need.count, found);
      var more := DynamicAux(f, at + need.aux, need.count, found);
      if count > 1 && need.next >= RECORD && more.Some? {
        assert at + need.next == start + (cursor + need.next);
        WalksAgree(f, needed, start, size, cursor + need.next, seen + 1, count - 1, more.value);
      }
    }
  }

  /** In particular nothing the dynamic walk accepts can fail the comparison with its section. */
  lemma AcceptedDynamicMatchesSection(f: Image, needed: set<Name>, start: nat, size: nat, count: nat)
    requires 0 < count <= MAX_RECORDS && Covered(f, start, count, start + size)
    requires DynamicNeeds(f, needed, start, count, {}).Some?
    ensures SectionNeeds(f, start, size, 0, 0, {}) == DynamicNeeds(f, needed, start, count, {})
  {
    WalksAgree(f, needed, start, size, 0, 0, count, {});
  }

  // ---------- A file that only the section walk accepts ----------

  const GCC_3: Name := [71, 67, 67, 95, 51]

  /** One record with one auxiliary record that points past itself, and the string table "GCC_3". */
  const UNTERMINATED: seq<Byte> :=
    [1, 0, 1, 0, 0, 0, 0, 0, 16, 0, 0, 0, 0, 0, 0, 0]
    + [0, 0, 0, 0, 0, 0, 0, 0, 0, 0, 0, 0, 16, 0, 0, 0]
    + GCC_3 + [0]

  lemma NulAfter(b: Byte, raw: seq<Byte>)
    requires b != 0
    ensures NulAt([b] + raw) == 1 + NulAt(raw)
  {
    assert ([b] + raw)[1..] == raw;
  }

  lemma LoadedName()
    ensures NameAt(UNTERMINATED, 32, 6, 0) == Some(GCC_3) && IsVersion(GCC_3)
  {
    assert UNTERMINATED[32..38] == GCC_3 + [0] == [71] + ([67] + ([67] + ([95] + ([51] + [0]))));
    NulAfter(51, [0]);
    NulAfter(95, [51] + [0]);
    NulAfter(67, [95] + ([51] + [0]));
    NulAfter(67, [67] + ([95] + ([51] + [0])));
    NulAfter(71, [67] + ([67] + ([95] + ([51] + [0]))));
    assert (GCC_3 + [0])[..5] == GCC_3;
    assert GCC_3[4..] == [51] && [51][1..] == [];
    assert Split([]) == [[]];
    assert [51] + Split([])[0] == [51] && Split([])[1..] == [];
    assert Split([51]) == [[51]];
  }

  lemma LoadedRecords()
    ensures var f := Load(UNTERMINATED, 32, 6);
      f.need(0) == Need(1, 1, 0, 16, 0) && f.aux(16) == Aux(0, 16)
  {
  }

  /** Attestation is not idle: an auxiliary list without terminator passes the section walk alone. */
  lemma SectionAloneIsLaxer()
    ensures var f := Load(UNTERMINATED, 32, 6);
      && Covered(f, 0, 1, 32)
      && SectionNeeds(f, 0, 32, 0, 0, {}) == Some({GCC_3})
      && DynamicNeeds(f, {GCC_3}, 0, 1, {}).None?
  {
    var f := Load(UNTERMINATED, 32, 6);
    LoadedName();
    LoadedRecords();
    assert {} + {GCC_3} == {GCC_3};
    assert VersionAt(f, 16) == Some(GCC_3);
    assert SectionAux(f, 0, 32, 16, 1, {}) == Some({GCC_3});
    assert SectionRecord(f, 0, 32, 0, 0, {}) == Done({GCC_3});
    assert AuxInside(f, 16, 1, 32);
  }

  // ---------- The GLIBC ceiling ----------

  function Number(digits: Name): nat {
    if digits == [] then 0 else Number(digits[..|digits| - 1]) * 10 + Digit(digits[|digits| - 1])
  }

  function Digit(b: Byte): nat {
    if 48 <= b <= 57 then b - 48 else 0
  }

  /** `version_tuple`. */
  function VersionTuple(version: Name): seq<nat> {
    var fields := Split(version);
    seq(|fields|, i requires 0 <= i < |fields| => Number(fields[i]))
  }

  /** Python's order on tuples. */
  predicate Less(a: seq<nat>, b: seq<nat>) {
    b != [] && (a == [] || a[0] < b[0] || (a[0] == b[0] && Less(a[1..], b[1..])))
  }

  lemma {:induction false} LessIsTransitive(a: seq<nat>, b: seq<nat>, c: seq<nat>)
    requires !Less(b, a) && !Less(c, b)
    ensures !Less(c, a)
    decreases |a|
  {
    if a != [] && b != [] && c != [] && a[0] == b[0] == c[0] {
      LessIsTransitive(a[1..], b[1..], c[1..]);
    }
  }

  /** The requirements as `sorted` leaves them: no later tuple is smaller. */
  predicate Sorted(versions: seq<Name>) {
    forall i, j | 0 <= i < j < |versions| :: !Less(VersionTuple(versions[j]), VersionTuple(versions[i]))
  }

  /** Testing only the last of the sorted requirements tests them all. */
  lemma CeilingBoundsEveryRequirement(versions: seq<Name>, ceiling: Name)
    requires versions != [] && Sorted(versions)
    ensures !Less(VersionTuple(ceiling), VersionTuple(versions[|versions| - 1]))
      <==> forall v <- versions :: !Less(VersionTuple(ceiling), VersionTuple(v))
  {
    var last := versions[|versions| - 1];
    if !Less(VersionTuple(ceiling), VersionTuple(last)) {
      forall v <- versions
        ensures !Less(VersionTuple(ceiling), VersionTuple(v))
      {
        var i :| 0 <= i < |versions| && versions[i] == v;
        if i < |versions| - 1 {
          LessIsTransitive(VersionTuple(v), VersionTuple(last), VersionTuple(ceiling));
        }
      }
    }
  }

  // ---------- What an accepted file requires ----------

  /** As a loaded file does, the image yields nothing but version names. */
  ghost predicate YieldsVersions(f: Image) {
    forall at: nat :: f.version(at).Some? ==> IsVersion(f.version(at).value)
  }

  lemma LoadYieldsVersions(data: seq<Byte>, strings: nat, size: nat)
    ensures YieldsVersions(Load(data, strings, size))
  {
  }

  predicate AllVersions(names: set<Name>) {
    forall name <- names :: IsVersion(name)
  }

  lemma {:induction false} AuxNamesAreVersions(f: Image, at: nat, count: nat, found: set<Name>)
    requires YieldsVersions(f) && count > 0 && AllVersions(found) && DynamicAux(f, at, count, found).Some?
    ensures AllVersions(DynamicAux(f, at, count, found).value)
    decreases count
  {
    if count > 1 {
      AuxNamesAreVersions(f, at + f.aux(at).next, count - 1, found + {VersionAt(f, at).value});
    }
  }

  lemma {:induction false} NamesAreVersions(f: Image, needed: set<Name>, at: nat, count: nat, found: set<Name>)
    requires YieldsVersions(f) && count > 0 && AllVersions(found) && DynamicNeeds(f, needed, at, count, found).Some?
    ensures AllVersions(DynamicNeeds(f, needed, at, count, found).value)
    decreases count
  {
    var need := f.need(at);
    AuxNamesAreVersions(f, at + need.aux, need.count, found);
    if count > 1 {
      NamesAreVersions(f, needed, at + need.next, count - 1, DynamicAux(f, at + need.aux, need.count, found).value);
    }
  }

  /** The GLIBC versions among the names, in some sorted order. */
  ghost predicate GlibcOf(versions: seq<Name>, names: set<Name>) {
    && Sorted(versions)
    && (forall name <- names | IsGlibc(name) :: name[|GLIBC|..] in versions)
    && forall v <- versions :: GLIBC + v in names && IsGlibc(GLIBC + v)
  }

  predicate WithinCeiling(name: Name, ceiling: Name) {
    IsGlibc(name) ==> !Less(VersionTuple(ceiling), VersionTuple(name[|GLIBC|..]))
  }

  /**
    From bytes to verdict: every name an accepted table requires is a GLIBC or GCC version, and the
    one comparison with the ceiling passes exactly when every GLIBC requirement is within it.
   */
  lemma VerdictCoversEveryRequirement(data: seq<Byte>, strings: nat, size: nat, needed: set<Name>, start: nat, count: nat,
                                      names: set<Name>, versions: seq<Name>, ceiling: Name)
    requires count > 0
    ensures DynamicNeeds(Load(data, strings, size), needed, start, count, {}) == Some(names) ==> AllVersions(names)
    ensures versions != [] && GlibcOf(versions, names) ==>
      (!Less(VersionTuple(ceiling), VersionTuple(versions[|versions| - 1]))
       <==> forall name <- names :: WithinCeiling(name, ceiling))
  {
    if DynamicNeeds(Load(data, strings, size), needed, start, count, {}) == Some(names) {
      LoadYieldsVersions(data, strings, size);
      NamesAreVersions(Load(data, strings, size), needed, start, count, {});
    }
    if versions != [] && GlibcOf(versions, names) {
      CeilingBoundsEveryRequirement(versions, ceiling);
      CeilingOverNames(versions, names, ceiling);
    }
  }

  lemma CeilingOverNames(versions: seq<Name>, names: set<Name>, ceiling: Name)
    requires GlibcOf(versions, names)
    ensures (forall v <- versions :: !Less(VersionTuple(ceiling), VersionTuple(v)))
      <==> forall name <- names :: WithinCeiling(name, ceiling)
  {
    if forall name <- names :: WithinCeiling(name, ceiling) {
      forall v <- versions ensures !Less(VersionTuple(ceiling), VersionTuple(v)) {
        assert (GLIBC + v)[|GLIBC|..] == v;
        assert WithinCeiling(GLIBC + v, ceiling);
      }
    }
  }
}
