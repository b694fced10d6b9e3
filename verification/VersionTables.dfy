/** What the two walks collect, said of the records of the file alone. */
module VersionTables {
  import opened Basics
  import opened VersionNeeds

  // ---------- Records by number ----------

  /** Where the auxiliary record number `j` of the list at `at` is, by following the offsets. */
  function AuxOffset(f: Image, at: nat, j: nat): nat
    decreases j
  {
    if j == 0 || !f.Has(at) then at else AuxOffset(f, at + f.aux(at).next, j - 1)
  }

  /** Where the record number `i` of the table at `at` is. */
  function NeedOffset(f: Image, at: nat, i: nat): nat
    decreases i
  {
    if i == 0 || !f.Has(at) then at else NeedOffset(f, at + f.need(at).next, i - 1)
  }

  /** The version that the auxiliary record at this offset names. */
  function NamedAt(f: Image, at: nat): Option<Name> {
    if f.Has(at) then f.version(f.aux(at).name) else None
  }

  predicate AuxNames(f: Image, at: nat, count: nat, name: Name) {
    exists j: nat | j < count :: NamedAt(f, AuxOffset(f, at, j)) == Some(name)
  }

  /** One of the auxiliary records of the record at this offset names it. */
  predicate RecordNames(f: Image, at: nat, name: Name) {
    f.Has(at) && AuxNames(f, at + f.need(at).aux, f.need(at).count, name)
  }

  /** One of the auxiliary records of one of the first `count` records names it. */
  predicate TableNames(f: Image, at: nat, count: nat, name: Name) {
    exists i: nat | i < count :: RecordNames(f, NeedOffset(f, at, i), name)
  }

  lemma AuxNamesCons(f: Image, at: nat, count: nat, name: Name)
    requires f.Has(at) && count > 0
    ensures AuxNames(f, at, count, name)
      <==> NamedAt(f, at) == Some(name) || AuxNames(f, at + f.aux(at).next, count - 1, name)
  {
    var next := at + f.aux(at).next;
    if AuxNames(f, at, count, name) && NamedAt(f, at) != Some(name) {
      var j: nat :| j < count && NamedAt(f, AuxOffset(f, at, j)) == Some(name);
      assert AuxOffset(f, at, j) == AuxOffset(f, next, j - 1);
    }
    if NamedAt(f, at) == Some(name) {
      assert AuxOffset(f, at, 0) == at;
    }
    if AuxNames(f, next, count - 1, name) {
      var j: nat :| j < count - 1 && NamedAt(f, AuxOffset(f, next, j)) == Some(name);
      assert AuxOffset(f, at, j + 1) == AuxOffset(f, next, j);
    }
  }

  lemma TableNamesCons(f: Image, at: nat, count: nat, name: Name)
    requires f.Has(at) && count > 0
    ensures TableNames(f, at, count, name)
      <==> RecordNames(f, at, name) || TableNames(f, at + f.need(at).next, count - 1, name)
  {
    var next := at + f.need(at).next;
    if TableNames(f, at, count, name) && !RecordNames(f, at, name) {
      var i: nat :| i < count && RecordNames(f, NeedOffset(f, at, i), name);
      assert NeedOffset(f, at, i) == NeedOffset(f, next, i - 1);
    }
    if RecordNames(f, at, name) {
      assert NeedOffset(f, at, 0) == at;
    }
    if TableNames(f, next, count - 1, name) {
      var i: nat :| i < count - 1 && RecordNames(f, NeedOffset(f, next, i), name);
      assert NeedOffset(f, at, i + 1) == NeedOffset(f, next, i);
    }
  }

  // ---------- The dynamic walk ----------

  /** An auxiliary record as the dynamic walk wants it: a version, and an end exactly if it is the last. */
  predicate AuxSound(f: Image, at: nat, last: bool) {
    f.Has(at) && NamedAt(f, at).Some? && if last then f.aux(at).next == 0 else f.aux(at).next >= 16
  }

  predicate AuxListSound(f: Image, at: nat, count: nat) {
    forall j: nat | j < count :: AuxSound(f, AuxOffset(f, at, j), j == count - 1)
  }

  lemma AuxListCons(f: Image, at: nat, count: nat)
    requires count > 1
    ensures AuxListSound(f, at, count)
      <==> AuxSound(f, at, false) && AuxListSound(f, at + f.aux(at).next, count - 1)
  {
    if AuxListSound(f, at, count) {
      assert AuxOffset(f, at, 0) == at;
      var next := at + f.aux(at).next;
      forall j: nat | j < count - 1 ensures AuxSound(f, AuxOffset(f, next, j), j == count - 2) {
        assert AuxOffset(f, at, j + 1) == AuxOffset(f, next, j);
      }
    }
    if AuxSound(f, at, false) && AuxListSound(f, at + f.aux(at).next, count - 1) {
      forall j: nat | j < count ensures AuxSound(f, AuxOffset(f, at, j), j == count - 1) {
        if j > 0 {
          assert AuxOffset(f, at, j) == AuxOffset(f, at + f.aux(at).next, j - 1);
        }
      }
    }
  }

  /** The inner dynamic walk accepts exactly the sound lists, and adds every name and no other. */
  lemma {:induction false} DynamicAuxExact(f: Image, at: nat, count: nat, found: set<Name>)
    requires count > 0
    ensures DynamicAux(f, at, count, found).Some? <==> AuxListSound(f, at, count)
    ensures DynamicAux(f, at, count, found).Some? ==>
      forall name :: (name in DynamicAux(f, at, count, found).value <==> name in found || AuxNames(f, at, count, name))
    decreases count
  {
    assert AuxOffset(f, at, 0) == at;
    if count == 1 {
      assert AuxListSound(f, at, 1) <==> AuxSound(f, at, true);
    } else {
      AuxListCons(f, at, count);
      if AuxSound(f, at, false) {
        DynamicAuxExact(f, at + f.aux(at).next, count - 1, found + {NamedAt(f, at).value});
      }
    }
    if f.Has(at) {
      forall name {
        AuxNamesCons(f, at, count, name);
      }
    }
  }

  /** A record as the dynamic walk wants it. */
  predicate NeedSound(f: Image, needed: set<Name>, at: nat, last: bool) {
    && f.Has(at)
    && var need := f.need(at);
       && need.version == 1 && 0 < need.count <= 4096
       && f.file(need.file).Some? && f.file(need.file).value in needed
       && AuxListSound(f, at + need.aux, need.count)
       && if last then need.next == 0 else 16 <= need.next <= 16 * 1024 * 1024
  }

  predicate TableSound(f: Image, needed: set<Name>, at: nat, count: nat) {
    forall i: nat | i < count :: NeedSound(f, needed, NeedOffset(f, at, i), i == count - 1)
  }

  lemma TableCons(f: Image, needed: set<Name>, at: nat, count: nat)
    requires count > 1
    ensures TableSound(f, needed, at, count)
      <==> NeedSound(f, needed, at, false) && TableSound(f, needed, at + f.need(at).next, count - 1)
  {
    if TableSound(f, needed, at, count) {
      assert NeedOffset(f, at, 0) == at;
      var next := at + f.need(at).next;
      forall i: nat | i < count - 1 ensures NeedSound(f, needed, NeedOffset(f, next, i), i == count - 2) {
        assert NeedOffset(f, at, i + 1) == NeedOffset(f, next, i);
      }
    }
    if NeedSound(f, needed, at, false) && TableSound(f, needed, at + f.need(at).next, count - 1) {
      forall i: nat | i < count ensures NeedSound(f, needed, NeedOffset(f, at, i), i == count - 1) {
        if i > 0 {
          assert NeedOffset(f, at, i) == NeedOffset(f, at + f.need(at).next, i - 1);
        }
      }
    }
  }

  /** The dynamic walk accepts exactly the sound tables, and collects every name they hold and no other. */
  lemma {:induction false} DynamicExact(f: Image, needed: set<Name>, at: nat, count: nat, found: set<Name>)
    requires count > 0
    ensures DynamicNeeds(f, needed, at, count, found).Some? <==> TableSound(f, needed, at, count)
    ensures DynamicNeeds(f, needed, at, count, found).Some? ==>
      forall name :: (name in DynamicNeeds(f, needed, at, count, found).value
                      <==> name in found || TableNames(f, at, count, name))
    decreases count
  {
    assert NeedOffset(f, at, 0) == at;
    if count == 1 {
      assert TableSound(f, needed, at, 1) <==> NeedSound(f, needed, at, true);
    } else {
      TableCons(f, needed, at, count);
    }
    if f.Has(at) && 0 < f.need(at).count {
      var need := f.need(at);
      DynamicAuxExact(f, at + need.aux, need.count, found);
      if count > 1 && NeedSound(f, needed, at, false) {
        DynamicExact(f, needed, at + need.next, count - 1, DynamicAux(f, at + need.aux, need.count, found).value);
      }
      forall name {
        TableNamesCons(f, at, count, name);
      }
    }
  }

  // ---------- The section walk ----------

  /** An auxiliary record as the section walk wants it: it may end the list only if it is the last. */
  predicate AuxInSection(f: Image, at: nat, last: bool, end: nat) {
    at + 16 <= end && f.Has(at) && NamedAt(f, at).Some? && (f.aux(at).next >= 16 || (last && f.aux(at).next == 0))
  }

  predicate AuxListInSection(f: Image, at: nat, count: nat, end: nat) {
    forall j: nat | j < count :: AuxInSection(f, AuxOffset(f, at, j), j == count - 1, end)
  }

  lemma AuxListInSectionCons(f: Image, at: nat, count: nat, end: nat)
    requires count > 1
    ensures AuxListInSection(f, at, count, end)
      <==> AuxInSection(f, at, false, end) && AuxListInSection(f, at + f.aux(at).next, count - 1, end)
  {
    if AuxListInSection(f, at, count, end) {
      assert AuxOffset(f, at, 0) == at;
      var next := at + f.aux(at).next;
      forall j: nat | j < count - 1 ensures AuxInSection(f, AuxOffset(f, next, j), j == count - 2, end) {
        assert AuxOffset(f, at, j + 1) == AuxOffset(f, next, j);
      }
    }
    if AuxInSection(f, at, false, end) && AuxListInSection(f, at + f.aux(at).next, count - 1, end) {
      forall j: nat | j < count ensures AuxInSection(f, AuxOffset(f, at, j), j == count - 1, end) {
        if j > 0 {
          assert AuxOffset(f, at, j) == AuxOffset(f, at + f.aux(at).next, j - 1);
        }
      }
    }
  }

  /** The inner section walk accepts exactly those lists, and adds every name and no other. */
  lemma {:induction false} SectionAuxExact(f: Image, base: nat, limit: nat, cursor: nat, count: nat, found: set<Name>)
    requires count > 0
    ensures SectionAux(f, base, limit, cursor, count, found).Some?
      <==> AuxListInSection(f, base + cursor, count, base + limit)
    ensures SectionAux(f, base, limit, cursor, count, found).Some? ==>
      forall name :: (name in SectionAux(f, base, limit, cursor, count, found).value
                      <==> name in found || AuxNames(f, base + cursor, count, name))
    decreases count
  {
    var at := base + cursor;
    assert AuxOffset(f, at, 0) == at;
    if count == 1 {
      assert AuxListInSection(f, at, 1, base + limit) <==> AuxInSection(f, at, true, base + limit);
    } else {
      AuxListInSectionCons(f, at, count, base + limit);
      if AuxInSection(f, at, false, base + limit) {
        assert at + f.aux(at).next == base + (cursor + f.aux(at).next);
        SectionAuxExact(f, base, limit, cursor + f.aux(at).next, count - 1, found + {NamedAt(f, at).value});
      }
    }
    if f.Has(at) {
      forall name {
        AuxNamesCons(f, at, count, name);
      }
    }
  }

  /** A record as the section walk wants it. */
  predicate NeedInSection(f: Image, at: nat, end: nat) {
    && at + 16 <= end && f.Has(at) && f.need(at).version == 1 && 0 < f.need(at).count <= 4096
    && AuxListInSection(f, at + f.need(at).aux, f.need(at).count, end)
  }

  /** A chain of exactly `count` records inside the section, to the end of the list or out of the section. */
  predicate ChainInSection(f: Image, at: nat, count: nat, end: nat)
    decreases count
  {
    if count == 0 then at >= end
    else
      && NeedInSection(f, at, end)
      && if f.need(at).next == 0 then count == 1
         else f.need(at).next >= 16 && ChainInSection(f, at + f.need(at).next, count - 1, end)
  }

  lemma SectionRecordExact(f: Image, start: nat, size: nat, cursor: nat, seen: nat, found: set<Name>)
    requires cursor < size
    ensures var p, at := SectionRecord(f, start, size, cursor, seen, found), start + cursor;
      && (!p.Refused? <==> seen <= 4096 && NeedInSection(f, at, start + size) && (f.need(at).next == 0 || f.need(at).next >= 16))
      && (p.Done? ==> f.need(at).next == 0)
      && (p.Onward? ==> f.need(at).next >= 16 && p.cursor == cursor + f.need(at).next)
      && (!p.Refused? ==> forall name :: (name in p.names <==> name in found || RecordNames(f, at, name)))
  {
    var at := start + cursor;
    if f.Has(at) && 0 < f.need(at).count {
      assert at + (size - cursor) == start + size;
      SectionAuxExact(f, at, size - cursor, f.need(at).aux, f.need(at).count, found);
    }
  }

  /** The section walk accepts only whole chains, and collects every name of theirs and no other. */
  lemma {:induction false} SectionNames(f: Image, start: nat, size: nat, cursor: nat, seen: nat, found: set<Name>)
    returns (count: nat)
    requires SectionNeeds(f, start, size, cursor, seen, found).Some?
    ensures ChainInSection(f, start + cursor, count, start + size) && (count > 0 ==> seen + count <= 4097)
    ensures forall name :: (name in SectionNeeds(f, start, size, cursor, seen, found).value
                            <==> name in found || TableNames(f, start + cursor, count, name))
    decreases size - cursor
  {
    if cursor >= size {
      count := 0;
    } else {
      var at, p := start + cursor, SectionRecord(f, start, size, cursor, seen, found);
      SectionStep(f, start, size, cursor, seen, found, p);
      SectionRecordExact(f, start, size, cursor, seen, found);
      if p.Done? {
        count := 1;
      } else {
        assert at + f.need(at).next == start + p.cursor;
        var others := SectionNames(f, start, size, p.cursor, seen + 1, p.names);
        count := others + 1;
      }
      forall name {
        TableNamesCons(f, at, count, name);
      }
    }
  }

  /** And it accepts all of them that are not too long. */
  lemma {:induction false} ChainIsAccepted(f: Image, start: nat, size: nat, cursor: nat, seen: nat, count: nat, found: set<Name>)
    requires ChainInSection(f, start + cursor, count, start + size) && (count > 0 ==> seen + count <= 4097)
    ensures SectionNeeds(f, start, size, cursor, seen, found).Some?
    decreases count
  {
    if cursor < size {
      var at, p := start + cursor, SectionRecord(f, start, size, cursor, seen, found);
      SectionStep(f, start, size, cursor, seen, found, p);
      SectionRecordExact(f, start, size, cursor, seen, found);
      if p.Onward? {
        assert at + f.need(at).next == start + p.cursor;
        ChainIsAccepted(f, start, size, p.cursor, seen + 1, count - 1, p.names);
      }
    }
  }

  // ---------- The verdict ----------

  /**
    From bytes to verdict: of an accepted table, the one comparison with the ceiling passes exactly
    when every GLIBC version named by any auxiliary record of any record is within it.
   */
  lemma VerdictIsOverEveryRecord(data: seq<Byte>, strings: nat, size: nat, needed: set<Name>, start: nat, count: nat,
                                 names: set<Name>, versions: seq<Name>, ceiling: Name)
    requires count > 0
    ensures DynamicNeeds(Load(data, strings, size), needed, start, count, {}) == Some(names) ==>
      && TableSound(Load(data, strings, size), needed, start, count)
      && (forall name :: name in names <==> TableNames(Load(data, strings, size), start, count, name))
      && (versions != [] && GlibcOf(versions, names) ==>
            (!Less(VersionTuple(ceiling), VersionTuple(versions[|versions| - 1]))
             <==> forall name | TableNames(Load(data, strings, size), start, count, name) :: WithinCeiling(name, ceiling)))
  {
    DynamicExact(Load(data, strings, size), needed, start, count, {});
    VerdictCoversEveryRequirement(data, strings, size, needed, start, count, names, versions, ceiling);
  }
}
