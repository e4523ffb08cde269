/**
 * Identifier rules of the attendance server: the sequential student, teacher and
 * subject IDs ("S00001", "T001", "B001"), the `^B\d+$` subject-ID check, and the
 * string order MongoDB uses when it looks up the latest ID.
 */
module Ids {
  import opened Wrappers

  // ---------------------------------------------------------------------------
  // Decimal digits

  predicate IsDigit(c: char) {
    '0' <= c <= '9'
  }

  predicate AllDigits(s: string) {
    forall i :: 0 <= i < |s| ==> IsDigit(s[i])
  }

  function DigitValue(c: char): (d: nat)
    requires IsDigit(c)
    ensures d < 10
  {
    (c as int) - ('0' as int)
  }

  function DigitChar(d: nat): (c: char)
    requires d < 10
    ensures IsDigit(c) && DigitValue(c) == d
    ensures c == '0' <==> d == 0
  {
    ('0' as int + d) as char
  }

  /** The value of a string of decimal digits, most significant digit first (`int(s)`). */
  function ParseNat(s: string): nat
    requires AllDigits(s)
  {
    if s == [] then 0 else 10 * ParseNat(s[..|s| - 1]) + DigitValue(s[|s| - 1])
  }

  /** Python's `str(n)`: the digits of `n` without leading zeros, "0" for zero. */
  function Decimal(n: nat): (s: string)
    ensures AllDigits(s) && |s| >= 1
    ensures n > 0 ==> s[0] != '0'
  {
    if n < 10 then [DigitChar(n)] else Decimal(n / 10) + [DigitChar(n % 10)]
  }

  lemma {:induction false} ParseDecimal(n: nat)
    ensures ParseNat(Decimal(n)) == n
  {
    if n >= 10 {
      var s := Decimal(n);
      assert s[..|s| - 1] == Decimal(n / 10);
      ParseDecimal(n / 10);
    }
  }

  function Zeros(k: nat): (z: string)
    ensures |z| == k && AllDigits(z)
  {
    seq(k, _ => '0')
  }

  /** Leading zeros do not change the value of a digit string. */
  lemma {:induction false} ParseLeadingZeros(k: nat, s: string)
    requires AllDigits(s)
    ensures ParseNat(Zeros(k) + s) == ParseNat(s)
  {
    var t := Zeros(k) + s;
    if s == [] {
      assert t == Zeros(k);
      if k > 0 {
        assert t[..|t| - 1] == Zeros(k - 1) + [];
        ParseLeadingZeros(k - 1, []);
      }
    } else {
      assert t[..|t| - 1] == Zeros(k) + s[..|s| - 1];
      ParseLeadingZeros(k, s[..|s| - 1]);
    }
  }

  /**
   * Python's `f"{n:0Wd}"`: `n` in decimal, padded on the left with zeros to at
   * least `width` characters. The result is the one digit string of at least
   * `width` characters that denotes `n` and carries no zero it does not need.
   */
  function Padded(n: nat, width: nat): (s: string)
    ensures AllDigits(s) && |s| >= width && |s| >= 1
    ensures ParseNat(s) == n
    ensures |s| > width ==> s[0] != '0' || n == 0
  {
    var d := Decimal(n);
    ParseDecimal(n);
    if |d| >= width then d
    else
      ParseLeadingZeros(width - |d|, d);
      Zeros(width - |d|) + d
  }

  // ---------------------------------------------------------------------------
  // ID generation as written (server.py, generate_student_id and its two twins)

  predicate HasPrefix(s: string, p: char) {
    |s| > 0 && s[0] == p
  }

  /** `int(s[1:])` succeeds (for ASCII digits): at least one character follows the prefix, all digits. */
  predicate NumericSuffix(s: string) {
    |s| > 1 && AllDigits(s[1..])
  }

  /** A generated ID, or the `ValueError` that `int()` raises on a non-numeric suffix. */
  datatype IdOutcome = Generated(id: string) | SuffixNotNumeric

  /**
   * The ID that follows `latest`, the ID of the document the collection returns
   * first when it is sorted by ID in descending order (None: no such document,
   * or it has no ID field).
   */
  function GenerateId(prefix: char, width: nat, latest: Option<string>): (r: IdOutcome)
    ensures r.SuffixNotNumeric? <==>
      latest.Some? && HasPrefix(latest.value, prefix) && !NumericSuffix(latest.value)
    ensures r.Generated? ==>
      HasPrefix(r.id, prefix) && NumericSuffix(r.id) && |r.id| >= width + 1 &&
      ParseNat(r.id[1..]) ==
        (if latest.Some? && HasPrefix(latest.value, prefix) && NumericSuffix(latest.value)
         then ParseNat(latest.value[1..]) + 1 else 1)
    ensures r.Generated? ==> r.id[1..] == Padded(ParseNat(r.id[1..]), width)
  {
    var next :=
      if latest.Some? && HasPrefix(latest.value, prefix) && NumericSuffix(latest.value)
      then ParseNat(latest.value[1..]) + 1 else 1;
    if latest.Some? && HasPrefix(latest.value, prefix) && !NumericSuffix(latest.value) then
      SuffixNotNumeric
    else
      var id := [prefix] + Padded(next, width);
      assert id[1..] == Padded(next, width);
      Generated(id)
  }

  function GenerateStudentId(latest: Option<string>): IdOutcome {
    GenerateId('S', 5, latest)
  }

  function GenerateTeacherId(latest: Option<string>): IdOutcome {
    GenerateId('T', 3, latest)
  }

  function GenerateSubjectId(latest: Option<string>): IdOutcome {
    GenerateId('B', 3, latest)
  }

  /** With no latest ID, or one with another prefix, the generators start at one. */
  lemma FirstIds(other: string)
    requires !HasPrefix(other, 'S') && !HasPrefix(other, 'T') && !HasPrefix(other, 'B')
    ensures GenerateStudentId(None) == Generated("S00001") == GenerateStudentId(Some(other))
    ensures GenerateTeacherId(None) == Generated("T001") == GenerateTeacherId(Some(other))
    ensures GenerateSubjectId(None) == Generated("B001") == GenerateSubjectId(Some(other))
  {
    assert Padded(1, 5) == "00001" by { assert Decimal(1) == "1"; }
    assert Padded(1, 3) == "001" by { assert Decimal(1) == "1"; }
  }

  // ---------------------------------------------------------------------------
  // The subject-ID check `re.match(r"^B\d+$", s)`

  /** "B" followed by one or more digits. */
  predicate IsBDigits(s: string) {
    |s| >= 2 && s[0] == 'B' && AllDigits(s[1..])
  }

  /** Python's `$` also matches just before one final newline. */
  predicate SubjectIdMatches(s: string) {
    IsBDigits(s) || (|s| >= 1 && s[|s| - 1] == '\n' && IsBDigits(s[..|s| - 1]))
  }

  lemma SubjectIdMatchesExactly(s: string)
    ensures SubjectIdMatches(s) <==>
      exists d: string :: |d| >= 1 && AllDigits(d) && (s == "B" + d || s == "B" + d + "\n")
  {
    if SubjectIdMatches(s) {
      if IsBDigits(s) {
        assert s == "B" + s[1..];
      } else {
        var t := s[..|s| - 1];
        assert t == "B" + t[1..];
        assert s == "B" + t[1..] + "\n";
      }
    }
    if exists d: string :: |d| >= 1 && AllDigits(d) && (s == "B" + d || s == "B" + d + "\n") {
      var d: string :| |d| >= 1 && AllDigits(d) && (s == "B" + d || s == "B" + d + "\n");
      if s == "B" + d {
        assert s[1..] == d;
      } else {
        assert s[..|s| - 1] == "B" + d;
        assert (s[..|s| - 1])[1..] == d;
      }
    }
  }

  /** Every subject ID the generator hands out passes the subject-ID check. */
  lemma GeneratedSubjectIdsMatch(latest: Option<string>)
    requires GenerateSubjectId(latest).Generated?
    ensures SubjectIdMatches(GenerateSubjectId(latest).id)
  {
  }

  // ---------------------------------------------------------------------------
  // How MongoDB picks "the latest" ID: strings compare character by character

  predicate LexLess(a: string, b: string) {
    if a == [] then b != []
    else if b == [] then false
    else if a[0] != b[0] then a[0] < b[0]
    else LexLess(a[1..], b[1..])
  }

  lemma {:induction false} LexLessIrreflexive(a: string)
    ensures !LexLess(a, a)
  {
    if a != [] {
      LexLessIrreflexive(a[1..]);
    }
  }

  lemma {:induction false} LexLessAsymmetric(a: string, b: string)
    requires LexLess(a, b)
    ensures !LexLess(b, a)
  {
    if a != [] && b != [] && a[0] == b[0] {
      LexLessAsymmetric(a[1..], b[1..]);
    }
  }

  /** "Not less than" is transitive: the order is total. */
  lemma {:induction false} NotLexLessTransitive(a: string, b: string, c: string)
    requires !LexLess(a, b) && !LexLess(b, c)
    ensures !LexLess(a, c)
  {
    if a != [] && b != [] && c != [] && a[0] == b[0] && b[0] == c[0] {
      NotLexLessTransitive(a[1..], b[1..], c[1..]);
    }
  }

  /** `find_one(sort=[(field, -1)])`: the greatest ID in string order. */
  function MongoLatest(ids: seq<string>): (r: Option<string>)
    ensures r.None? <==> ids == []
    ensures r.Some? ==> r.value in ids
  {
    if ids == [] then None
    else
      var rest := MongoLatest(ids[1..]);
      if rest.Some? && LexLess(ids[0], rest.value) then rest else Some(ids[0])
  }

  lemma {:induction false} MongoLatestIsGreatest(ids: seq<string>)
    requires ids != []
    ensures forall id :: id in ids ==> !LexLess(MongoLatest(ids).value, id)
  {
    var m := MongoLatest(ids).value;
    LexLessIrreflexive(m);
    if ids[1..] != [] {
      MongoLatestIsGreatest(ids[1..]);
      var rest := MongoLatest(ids[1..]).value;
      forall id | id in ids
        ensures !LexLess(m, id)
      {
        if id in ids[1..] {
          if m == rest {
          } else {
            assert !LexLess(ids[0], rest);
            NotLexLessTransitive(ids[0], rest, id);
          }
        } else {
          assert id == ids[0];
          if m == rest {
            LexLessAsymmetric(ids[0], rest);
          }
        }
      }
    } else {
      assert ids == [ids[0]];
    }
  }

  /**
   * As written, the generators can hand out an ID that already exists: once the
   * numbers outgrow the padding width, "T1000" sorts before "T999", so the
   * latest ID stays "T999" and "T1000" is generated again.
   */
  lemma TeacherIdCollision()
    ensures GenerateTeacherId(MongoLatest(["T999", "T1000"])) == Generated("T1000")
  {
    var ids := ["T999", "T1000"];
    assert !LexLess("999", "1000");
    assert !LexLess("T999", "T1000") by {
      assert "T999"[1..] == "999" && "T1000"[1..] == "1000";
    }
    assert MongoLatest(ids[1..]) == Some("T1000") by {
      assert ids[1..][1..] == [];
    }
    assert MongoLatest(ids) == Some("T999");
    assert "T999"[1..] == "999";
    assert ParseNat("999") == 999 by {
      assert "999"[..2] == "99" && "99"[..1] == "9" && "9"[..0] == "";
    }
    assert Padded(1000, 3) == "1000" by {
      assert Decimal(1) == "1";
      assert Decimal(10) == "10";
      assert Decimal(100) == "100";
      assert Decimal(1000) == "1000";
    }
    assert ['T'] + "1000" == "T1000";
  }

  // ---------------------------------------------------------------------------
  // ID generation as intended: one past the greatest numeric suffix

  /** The largest number among the IDs with the prefix and a numeric suffix, 0 if none. */
  function MaxSuffix(prefix: char, ids: seq<string>): (m: nat)
    ensures forall id :: id in ids && HasPrefix(id, prefix) && NumericSuffix(id) ==>
      ParseNat(id[1..]) <= m
    ensures m == 0 || exists id :: id in ids && HasPrefix(id, prefix) && NumericSuffix(id) && ParseNat(id[1..]) == m
  {
    if ids == [] then 0
    else
      var rest := MaxSuffix(prefix, ids[1..]);
      if HasPrefix(ids[0], prefix) && NumericSuffix(ids[0]) && ParseNat(ids[0][1..]) > rest
      then ParseNat(ids[0][1..]) else rest
  }

  function NextFreeId(prefix: char, width: nat, ids: seq<string>): (id: string)
    ensures HasPrefix(id, prefix) && NumericSuffix(id) && |id| >= width + 1
    ensures id[1..] == Padded(MaxSuffix(prefix, ids) + 1, width)
  {
    var id := [prefix] + Padded(MaxSuffix(prefix, ids) + 1, width);
    assert id[1..] == Padded(MaxSuffix(prefix, ids) + 1, width);
    id
  }

  /** The corrected generator never returns an ID already in the collection. */
  lemma NextFreeIdIsFresh(prefix: char, width: nat, ids: seq<string>)
    ensures NextFreeId(prefix, width, ids) !in ids
  {
  }

  /** Corrected subject IDs pass the subject-ID check too. */
  lemma NextFreeSubjectIdMatches(ids: seq<string>)
    ensures SubjectIdMatches(NextFreeId('B', 3, ids))
  {
  }

  /** On the collision example the corrected generator moves on to "T1001". */
  lemma NextFreeTeacherIdAfterCollision()
    ensures NextFreeId('T', 3, ["T999", "T1000"]) == "T1001"
  {
    var ids := ["T999", "T1000"];
    assert "T999"[1..] == "999" && "T1000"[1..] == "1000";
    assert ParseNat("999") == 999 by {
      assert "999"[..2] == "99" && "99"[..1] == "9" && "9"[..0] == "";
    }
    assert ParseNat("1000") == 1000 by {
      assert "1000"[..3] == "100" && "100"[..2] == "10" && "10"[..1] == "1" && "1"[..0] == "";
    }
    assert MaxSuffix('T', ids[1..]) == 1000 by {
      assert ids[1..][1..] == [];
    }
    assert MaxSuffix('T', ids) == 1000;
    assert Padded(1001, 3) == "1001" by {
      assert Decimal(1) == "1";
      assert Decimal(10) == "10";
      assert Decimal(100) == "100";
      assert Decimal(1001) == "1001";
    }
    assert ['T'] + "1001" == "T1001";
  }
}
