/** What the bytes of a version table mean: records, strings, version names and their order. */
module VersionNames {
  import opened Basics
  import opened VersionNeeds

  // ---------- Records ----------

  function Le16(n: nat): seq<Byte>
    requires n < 65536
  {
    [n % 256, n / 256]
  }

  function Le32(n: nat): seq<Byte>
    requires n < 65536 * 65536
  {
    Le16(n % 65536) + Le16(n / 65536)
  }

  /** The bytes stand at this offset. */
  predicate At(data: seq<Byte>, at: nat, bytes: seq<Byte>) {
    at + |bytes| <= |data| && data[at..at + |bytes|] == bytes
  }

  lemma ReadLe16(data: seq<Byte>, at: nat, n: nat)
    requires n < 65536 && At(data, at, Le16(n))
    ensures U16(data, at) == n
  {
    assert data[at] == data[at..at + 2][0] && data[at + 1] == data[at..at + 2][1];
  }

  lemma ReadLe32(data: seq<Byte>, at: nat, n: nat)
    requires n < 65536 * 65536 && At(data, at, Le32(n))
    ensures U32(data, at) == n
  {
    Nested(data, at, Le16(n % 65536), Le16(n / 65536));
    ReadLe16(data, at, n % 65536);
    ReadLe16(data, at + 2, n / 65536);
  }

  lemma Nested(data: seq<Byte>, at: nat, a: seq<Byte>, b: seq<Byte>)
    requires At(data, at, a + b)
    ensures At(data, at, a) && At(data, at + |a|, b)
  {
    var all := data[at..at + |a + b|];
    assert all[..|a|] == a && all[|a|..] == b;
    assert data[at..at + |a|] == all[..|a|] && data[at + |a|..at + |a| + |b|] == all[|a|..];
  }

  /** An Elf64_Verneed written in little-endian order reads back field by field. */
  lemma NeedReadsBack(data: seq<Byte>, strings: nat, size: nat, at: nat, need: Need)
    requires need.version < 65536 && need.count < 65536
    requires need.file < 65536 * 65536 && need.aux < 65536 * 65536 && need.next < 65536 * 65536
    requires At(data, at, Le16(need.version) + (Le16(need.count) + (Le32(need.file) + (Le32(need.aux) + Le32(need.next)))))
    ensures Load(data, strings, size).Has(at) && Load(data, strings, size).need(at) == need
  {
    Nested(data, at, Le16(need.version), Le16(need.count) + (Le32(need.file) + (Le32(need.aux) + Le32(need.next))));
    Nested(data, at + 2, Le16(need.count), Le32(need.file) + (Le32(need.aux) + Le32(need.next)));
    Nested(data, at + 4, Le32(need.file), Le32(need.aux) + Le32(need.next));
    Nested(data, at + 8, Le32(need.aux), Le32(need.next));
    ReadLe16(data, at, need.version);
    ReadLe16(data, at + 2, need.count);
    ReadLe32(data, at + 4, need.file);
    ReadLe32(data, at + 8, need.aux);
    ReadLe32(data, at + 12, need.next);
  }

  /** So does an Elf64_Vernaux, whatever its hash, flags and version index. */
  lemma AuxReadsBack(data: seq<Byte>, strings: nat, size: nat, at: nat, hash: nat, flags: nat, other: nat, aux: Aux)
    requires hash < 65536 * 65536 && flags < 65536 && other < 65536
    requires aux.name < 65536 * 65536 && aux.next < 65536 * 65536
    requires At(data, at, Le32(hash) + (Le16(flags) + (Le16(other) + (Le32(aux.name) + Le32(aux.next)))))
    ensures Load(data, strings, size).Has(at) && Load(data, strings, size).aux(at) == aux
  {
    Nested(data, at, Le32(hash), Le16(flags) + (Le16(other) + (Le32(aux.name) + Le32(aux.next))));
    Nested(data, at + 4, Le16(flags), Le16(other) + (Le32(aux.name) + Le32(aux.next)));
    Nested(data, at + 6, Le16(other), Le32(aux.name) + Le32(aux.next));
    Nested(data, at + 8, Le32(aux.name), Le32(aux.next));
    ReadLe32(data, at + 8, aux.name);
    ReadLe32(data, at + 12, aux.next);
  }

  // ---------- Strings ----------

  lemma {:induction false} NulIsFirst(raw: seq<Byte>)
    ensures forall i | 0 <= i < NulAt(raw) :: raw[i] != 0
    ensures NulAt(raw) < |raw| ==> raw[NulAt(raw)] == 0
  {
    if raw != [] && raw[0] != 0 {
      NulIsFirst(raw[1..]);
    }
  }

  predicate Printable(name: Name) {
    name != [] && forall i | 0 <= i < |name| :: 0x21 <= name[i] <= 0x7E
  }

  /** The string stands in the table at this offset: printable, closed by a NUL inside the table and the file. */
  predicate InTable(data: seq<Byte>, strings: nat, size: nat, at: nat, name: Name) {
    && strings + size <= |data| && at + |name| < size && Printable(name)
    && At(data, strings + at, name) && data[strings + at + |name|] == 0
  }

  lemma {:induction false} NulIsAt(raw: seq<Byte>, k: nat)
    requires k < |raw| && raw[k] == 0 && forall i | 0 <= i < k :: raw[i] != 0
    ensures NulAt(raw) == k
    decreases k
  {
    if k > 0 {
      NulIsAt(raw[1..], k - 1);
    }
  }

  lemma PrintableBytes(name: Name)
    ensures Printable(name) <==> name != [] && !exists b <- name :: b < 0x21 || b > 0x7E
  {
    if Printable(name) {
      forall b <- name ensures 0x21 <= b <= 0x7E {
        var i :| 0 <= i < |name| && name[i] == b;
      }
    } else if name != [] {
      var i :| 0 <= i < |name| && !(0x21 <= name[i] <= 0x7E);
      assert name[i] in name;
    }
  }

  lemma TableIsRead(data: seq<Byte>, strings: nat, size: nat, at: nat, name: Name)
    requires InTable(data, strings, size, at, name)
    ensures NameAt(data, strings, size, at) == Some(name)
  {
    var raw := data[strings + at..strings + at + (size - at)];
    assert raw[..|name|] == data[strings + at..strings + at + |name|] == name;
    assert raw[|name|] == data[strings + at + |name|];
    forall i | 0 <= i < |name| ensures raw[i] != 0 {
      assert raw[i] == raw[..|name|][i];
    }
    NulIsAt(raw, |name|);
    PrintableBytes(name);
  }

  lemma ReadIsInTable(data: seq<Byte>, strings: nat, size: nat, at: nat, name: Name)
    requires NameAt(data, strings, size, at) == Some(name)
    ensures InTable(data, strings, size, at, name)
  {
    var raw := data[strings + at..strings + at + (size - at)];
    assert name == raw[..NulAt(raw)] && NulAt(raw) < |raw|;
    NulIsFirst(raw);
    PrintableBytes(name);
    assert raw[|name|] == data[strings + at + |name|];
    assert data[strings + at..strings + at + |name|] == raw[..|name|];
  }

  /** Exactly the strings of the table are read. */
  lemma NameAtExact(data: seq<Byte>, strings: nat, size: nat, at: nat, name: Name)
    ensures NameAt(data, strings, size, at) == Some(name) <==> InTable(data, strings, size, at, name)
  {
    if InTable(data, strings, size, at, name) {
      TableIsRead(data, strings, size, at, name);
    }
    if NameAt(data, strings, size, at) == Some(name) {
      ReadIsInTable(data, strings, size, at, name);
    }
  }

  // ---------- Version names ----------

  function Join(fields: seq<Name>): Name
    requires fields != []
  {
    if |fields| == 1 then fields[0] else fields[0] + [DOT] + Join(fields[1..])
  }

  predicate DotFree(field: Name) {
    forall i | 0 <= i < |field| :: field[i] != DOT
  }

  lemma {:induction false} SplitLast(field: Name)
    requires DotFree(field)
    ensures Split(field) == [field]
  {
    if field != [] {
      SplitLast(field[1..]);
      assert [field[0]] + field[1..] == field;
    }
  }

  lemma {:induction false} SplitFirst(field: Name, rest: Name)
    requires DotFree(field)
    ensures Split(field + [DOT] + rest) == [field] + Split(rest)
  {
    var s := field + [DOT] + rest;
    if field == [] {
      assert s[1..] == rest;
    } else {
      assert s[1..] == field[1..] + [DOT] + rest;
      SplitFirst(field[1..], rest);
      assert ([field[1..]] + Split(rest))[1..] == Split(rest) && [field[0]] + field[1..] == field;
    }
  }

  /** Splitting at the dots undoes joining with dots. */
  lemma {:induction false} SplitJoin(fields: seq<Name>)
    requires fields != [] && forall i | 0 <= i < |fields| :: DotFree(fields[i])
    ensures Split(Join(fields)) == fields
    decreases |fields|
  {
    if |fields| == 1 {
      SplitLast(fields[0]);
    } else {
      SplitFirst(fields[0], Join(fields[1..]));
      SplitJoin(fields[1..]);
    }
  }

  lemma JoinEmptyFirst(fields: seq<Name>)
    requires fields != []
    ensures Join([[]] + fields) == [DOT] + Join(fields)
  {
    assert ([[]] + fields)[1..] == fields;
  }

  lemma JoinLonger(b: Byte, fields: seq<Name>)
    requires fields != []
    ensures Join([[b] + fields[0]] + fields[1..]) == [b] + Join(fields)
  {
    var longer := [[b] + fields[0]] + fields[1..];
    assert longer[1..] == fields[1..];
    if |fields| > 1 {
      assert [b] + fields[0] + [DOT] + Join(fields[1..]) == [b] + (fields[0] + [DOT] + Join(fields[1..]));
    }
  }

  /** And joining undoes splitting. */
  lemma {:induction false} JoinSplit(s: Name)
    ensures Join(Split(s)) == s
  {
    if s != [] {
      JoinSplit(s[1..]);
      JoinEmptyFirst(Split(s[1..]));
      JoinLonger(s[0], Split(s[1..]));
      assert [s[0]] + s[1..] == s;
    }
  }

  predicate IsNumeral(field: Name) {
    field != [] && forall i | 0 <= i < |field| :: 48 <= field[i] <= 57
  }

  /** The name is the prefix, then numerals with dots between them. */
  predicate Spelled(name: Name, prefix: Name, fields: seq<Name>) {
    fields != [] && (forall i | 0 <= i < |fields| :: IsNumeral(fields[i])) && name == prefix + Join(fields)
  }

  lemma NumeralFields(fields: seq<Name>)
    ensures AllNumbers(fields) <==> forall i | 0 <= i < |fields| :: IsNumeral(fields[i])
  {
    if AllNumbers(fields) {
      forall i | 0 <= i < |fields| ensures IsNumeral(fields[i]) {
        assert fields[i] in fields;
        assert forall j | 0 <= j < |fields[i]| :: fields[i][j] in fields[i];
      }
    }
  }

  lemma SpellingOf(name: Name, prefix: Name)
    requires prefix <= name
    ensures forall fields :: Spelled(name, prefix, fields) <==> fields == Split(name[|prefix|..]) && AllNumbers(fields)
  {
    var tail := name[|prefix|..];
    assert name == prefix + tail;
    JoinSplit(tail);
    forall fields
      ensures Spelled(name, prefix, fields) <==> fields == Split(tail) && AllNumbers(fields)
    {
      NumeralFields(fields);
      if Spelled(name, prefix, fields) {
        assert Join(fields) == tail;
        SplitJoin(fields);
      }
    }
  }

  /** GLIBC names have two or three numerals, GCC names any number of them, and nothing else is a version. */
  lemma VersionSpelling(name: Name)
    ensures IsGlibc(name) <==> exists fields :: Spelled(name, GLIBC, fields) && 2 <= |fields| <= 3
    ensures IsVersion(name) <==> IsGlibc(name) || exists fields :: Spelled(name, GCC, fields)
  {
    if GLIBC <= name {
      SpellingOf(name, GLIBC);
      assert IsGlibc(name) ==> Spelled(name, GLIBC, Split(name[|GLIBC|..]));
    }
    if GCC <= name {
      SpellingOf(name, GCC);
      assert AllNumbers(Split(name[|GCC|..])) ==> Spelled(name, GCC, Split(name[|GCC|..]));
    }
  }

  /** What a loaded file yields as file and version names. */
  lemma LoadedNamesExact(data: seq<Byte>, strings: nat, size: nat, at: nat, name: Name)
    ensures Load(data, strings, size).file(at) == Some(name) <==> InTable(data, strings, size, at, name)
    ensures Load(data, strings, size).version(at) == Some(name) <==>
      && InTable(data, strings, size, at, name)
      && exists fields :: (Spelled(name, GLIBC, fields) && 2 <= |fields| <= 3) || Spelled(name, GCC, fields)
  {
    NameAtExact(data, strings, size, at, name);
    VersionSpelling(name);
  }

  // ---------- The order of versions ----------

  /** `n` in decimal. */
  function Digits(n: nat): Name {
    if n < 10 then [48 + n] else Digits(n / 10) + [48 + n % 10]
  }

  lemma {:induction false} DigitsReadBack(n: nat)
    ensures Number(Digits(n)) == n && IsNumeral(Digits(n))
  {
    if n < 10 {
      assert Digits(n)[..0] == [];
    } else {
      DigitsReadBack(n / 10);
      assert Digits(n)[..|Digits(n)| - 1] == Digits(n / 10);
    }
  }

  /** A version written out: its numbers in decimal, with dots between them. */
  function Written(numbers: seq<nat>): Name
    requires numbers != []
  {
    Join(seq(|numbers|, i requires 0 <= i < |numbers| => Digits(numbers[i])))
  }

  /** `version_tuple` reads back the numbers of any version. */
  lemma TupleReadsBack(numbers: seq<nat>)
    requires numbers != []
    ensures VersionTuple(Written(numbers)) == numbers
  {
    var fields := seq(|numbers|, i requires 0 <= i < |numbers| => Digits(numbers[i]));
    forall i | 0 <= i < |fields| ensures DotFree(fields[i]) && Number(fields[i]) == numbers[i] {
      DigitsReadBack(numbers[i]);
    }
    SplitJoin(fields);
  }

  /** The first `k` numbers are the same and the next one decides; a version is below its extensions. */
  predicate DecidedAt(a: seq<nat>, b: seq<nat>, k: nat) {
    k <= |a| && k < |b| && a[..k] == b[..k] && (k == |a| || a[k] < b[k])
  }

  lemma DecidedByHead(a: seq<nat>, b: seq<nat>, k: nat)
    requires DecidedAt(a, b, k)
    ensures b != [] && (a == [] || a[0] <= b[0])
  {
    if k > 0 {
      assert a[..k][0] == a[0] && b[..k][0] == b[0];
    }
  }

  lemma {:induction false} LessIsLexicographic(a: seq<nat>, b: seq<nat>)
    ensures Less(a, b) <==> exists k: nat :: DecidedAt(a, b, k)
    decreases |a|
  {
    if a == [] || b == [] || a[0] != b[0] {
      if Less(a, b) {
        assert DecidedAt(a, b, 0);
      }
      forall k: nat | DecidedAt(a, b, k) ensures Less(a, b) {
        DecidedByHead(a, b, k);
      }
    } else {
      LessIsLexicographic(a[1..], b[1..]);
      if Less(a, b) {
        var k: nat :| DecidedAt(a[1..], b[1..], k);
        assert a[..k + 1] == [a[0]] + a[1..][..k] && b[..k + 1] == [b[0]] + b[1..][..k];
        assert DecidedAt(a, b, k + 1);
      }
      forall k: nat | DecidedAt(a, b, k) ensures Less(a, b) {
        assert k > 0;
        assert a[1..][..k - 1] == a[..k][1..] && b[1..][..k - 1] == b[..k][1..];
        assert DecidedAt(a[1..], b[1..], k - 1);
      }
    }
  }

  /** Two-part versions compare by major number, then by minor number, as numbers. */
  lemma MajorThenMinor(major: nat, minor: nat, major': nat, minor': nat)
    ensures Less(VersionTuple(Written([major, minor])), VersionTuple(Written([major', minor'])))
      <==> major < major' || (major == major' && minor < minor')
  {
    TupleReadsBack([major, minor]);
    TupleReadsBack([major', minor']);
    assert [major, minor][1..] == [minor] && [major', minor'][1..] == [minor'];
    assert [minor][1..] == [] && [minor'][1..] == [];
    assert Less([minor], [minor']) <==> minor < minor';
  }
}
