/**
 * The attendance collection: one document per (student, subject, date), found
 * with `find_one` and written with `update_one` or `insert_one`.
 */
module AttendanceStore {
  import opened Wrappers
  import opened Seqs

  /** A calendar day as `strptime(.., "%Y-%m-%d")` normalised to midnight yields it. */
  datatype Day = Day(ordinal: int)

  /**
   * The `date` field. Most handlers store a normalised datetime; `mark_all_absent`
   * stores the request's date string as it came, and the two never compare equal.
   */
  datatype DateValue = OnDay(day: Day) | AsText(text: string)

  datatype Key = Key(studentId: string, subjectId: string, date: DateValue)

  datatype Record = Record(
    studentId: string, studentName: string,
    subjectId: string, subjectName: string,
    course: string, classYear: string, division: string,
    status: string, date: DateValue,
    markedBy: Option<string>, updatedBy: Option<string>)

  function KeyOf(r: Record): Key {
    Key(r.studentId, r.subjectId, r.date)
  }

  /** No two documents share a key: the collection behaves as a map from keys to records. */
  predicate UniqueKeys(store: seq<Record>) {
    forall i, j :: 0 <= i < j < |store| ==> KeyOf(store[i]) != KeyOf(store[j])
  }

  /** `find_one({"student_id": .., "subject_id": .., "date": ..})`. */
  function FindKey(store: seq<Record>, k: Key): Option<nat> {
    First(store, (r: Record) => KeyOf(r) == k)
  }

  /** The status recorded for a key, if any document has that key. */
  function StatusOf(store: seq<Record>, k: Key): (r: Option<string>)
    ensures r.Some? <==> exists i :: 0 <= i < |store| && KeyOf(store[i]) == k
  {
    match FindKey(store, k)
    case Some(i) => Some(store[i].status)
    case None => None
  }

  /**
   * The handlers' "update if it exists, else insert": set the status (and
   * `updated_by`) of the first document with `row`'s key, or append `row`.
   */
  function Upsert(store: seq<Record>, row: Record, updatedBy: Option<string>): seq<Record> {
    match FindKey(store, KeyOf(row))
    case Some(i) => store[i := store[i].(status := row.status, updatedBy := updatedBy)]
    case None => store + [row]
  }

  /** Whether `Upsert` takes its update branch ("Attendance updated successfully"). */
  predicate Marked(store: seq<Record>, k: Key) {
    FindKey(store, k).Some?
  }

  /** Two stores with the same key at every position answer every key lookup alike. */
  lemma {:induction false} FindKeySameKeys(a: seq<Record>, b: seq<Record>, k: Key)
    requires |a| == |b| && forall i :: 0 <= i < |a| ==> KeyOf(a[i]) == KeyOf(b[i])
    ensures FindKey(a, k) == FindKey(b, k)
  {
  }

  /** Appending a record leaves the lookup of every other key unchanged. */
  lemma FindKeyAppend(store: seq<Record>, r: Record, k: Key)
    ensures FindKey(store + [r], k) ==
      if FindKey(store, k).Some? then FindKey(store, k)
      else if KeyOf(r) == k then Some(|store|) else None
  {
    var s := store + [r];
    var f, g := FindKey(store, k), FindKey(s, k);
    assert forall j :: 0 <= j < |store| ==> s[j] == store[j];
    if f.Some? {
      assert s[f.value] == store[f.value];
    } else if KeyOf(r) == k {
      assert KeyOf(s[|store|]) == k;
    }
  }

  /**
   * Marking a key: afterwards the key has the new status, every other key keeps
   * its status, the store grows by one record exactly when the key was absent,
   * and no second record with the same key is ever created.
   */
  lemma UpsertSpec(store: seq<Record>, row: Record, updater: Option<string>)
    ensures StatusOf(Upsert(store, row, updater), KeyOf(row)) == Some(row.status)
    ensures forall k :: k != KeyOf(row) ==>
      StatusOf(Upsert(store, row, updater), k) == StatusOf(store, k)
    ensures |Upsert(store, row, updater)| ==
      if Marked(store, KeyOf(row)) then |store| else |store| + 1
    ensures UniqueKeys(store) ==> UniqueKeys(Upsert(store, row, updater))
  {
    var after := Upsert(store, row, updater);
    match FindKey(store, KeyOf(row))
    case Some(i) =>
      forall k {
        FindKeySameKeys(store, after, k);
      }
      assert forall j :: 0 <= j < |store| ==> KeyOf(after[j]) == KeyOf(store[j]);
    case None =>
      forall k {
        FindKeyAppend(store, row, k);
      }
  }

  /** Marking the same key twice leaves one record for it, with the later status. */
  lemma UpsertTwice(store: seq<Record>, first: Record, second: Record, updater1: Option<string>, updater2: Option<string>)
    requires KeyOf(first) == KeyOf(second)
    ensures var after := Upsert(Upsert(store, first, updater1), second, updater2);
      |after| == |Upsert(store, first, updater1)| &&
      StatusOf(after, KeyOf(second)) == Some(second.status)
  {
    UpsertSpec(store, first, updater1);
    UpsertSpec(Upsert(store, first, updater1), second, updater2);
  }
}
