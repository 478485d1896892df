/**
 * The job table's pure operations: the sort `display_jobs` applies, the
 * status and owner filters of the main menu, and the first-match partial
 * job-ID lookup of `kill_job` and `view_log`.
 */
module JobTable {
  import opened Wrappers
  import opened Text
  import opened Records

  // ---------------------------------------------------------------- sort keys

  /** The CPUs sort key: `int(v) if v.isdigit() else 0`. */
  function CpusKey(v: string): (k: nat)
    ensures IsDigits(v) ==> k == ParseDigits(v)
    ensures !IsDigits(v) ==> k == 0
  {
    if IsDigits(v) then ParseDigits(v) else 0
  }

  /** A sort key: numeric for CPUs, the string itself for every other column. */
  datatype Key = Num(n: int) | Str(s: string)

  function KeyOf(job: JobRecord, f: Field): Key {
    if f == CPUs then Num(CpusKey(job.cpus)) else Str(Get(job, f))
  }

  /** Python's `a <= b` on strings: lexicographic by code point. */
  predicate StrLe(a: string, b: string) {
    a == [] || (b != [] && (a[0] < b[0] || (a[0] == b[0] && StrLe(a[1..], b[1..]))))
  }

  predicate KeyLe(a: Key, b: Key) {
    match (a, b)
    case (Num(x), Num(y)) => x <= y
    case (Str(x), Str(y)) => StrLe(x, y)
    case (Num(_), Str(_)) => true
    case (Str(_), Num(_)) => false
  }

  lemma {:induction false} StrLeTotal(a: string, b: string)
    ensures StrLe(a, b) || StrLe(b, a)
  {
    if a != [] && b != [] && a[0] == b[0] {
      StrLeTotal(a[1..], b[1..]);
    }
  }

  lemma {:induction false} StrLeTransitive(a: string, b: string, c: string)
    requires StrLe(a, b) && StrLe(b, c)
    ensures StrLe(a, c)
  {
    if a != [] && a[0] == b[0] && b[0] == c[0] {
      StrLeTransitive(a[1..], b[1..], c[1..]);
    }
  }

  lemma {:induction false} StrLeAntisymmetric(a: string, b: string)
    requires StrLe(a, b) && StrLe(b, a)
    ensures a == b
  {
    if a != [] {
      StrLeAntisymmetric(a[1..], b[1..]);
      assert a == [a[0]] + a[1..] && b == [b[0]] + b[1..];
    }
  }

  /** The key order is a total order: every pair compares, and it is transitive and antisymmetric. */
  lemma KeyLeTotalOrder(a: Key, b: Key, c: Key)
    ensures KeyLe(a, a)
    ensures KeyLe(a, b) || KeyLe(b, a)
    ensures KeyLe(a, b) && KeyLe(b, c) ==> KeyLe(a, c)
    ensures KeyLe(a, b) && KeyLe(b, a) ==> a == b
  {
    if a.Str? {
      StrLeTotal(a.s, a.s);
      if b.Str? {
        StrLeTotal(a.s, b.s);
        if KeyLe(a, b) && KeyLe(b, a) {
          StrLeAntisymmetric(a.s, b.s);
        }
        if c.Str? && KeyLe(a, b) && KeyLe(b, c) {
          StrLeTransitive(a.s, b.s, c.s);
        }
      }
    }
  }

  // ---------------------------------------------------------------- stable sort

  predicate SortedBy(s: seq<JobRecord>, f: Field) {
    forall i, j :: 0 <= i < j < |s| ==> KeyLe(KeyOf(s[i], f), KeyOf(s[j], f))
  }

  /** The records of `s` whose key is `k`, in their order in `s`. */
  function WithKey(s: seq<JobRecord>, f: Field, k: Key): seq<JobRecord> {
    if s == [] then [] else (if KeyOf(s[0], f) == k then [s[0]] else []) + WithKey(s[1..], f, k)
  }

  /**
   * `out` is what a stable sort of `input` by column `f` yields: ordered by
   * the key, the same records, and records with equal keys in their input
   * order.
   */
  ghost predicate StableSortOf(out: seq<JobRecord>, input: seq<JobRecord>, f: Field) {
    && SortedBy(out, f)
    && multiset(out) == multiset(input)
    && forall k :: WithKey(out, f, k) == WithKey(input, f, k)
  }

  /** Place `x` before the first record whose key is not smaller. */
  function Insert(x: JobRecord, t: seq<JobRecord>, f: Field): seq<JobRecord> {
    if t == [] || KeyLe(KeyOf(x, f), KeyOf(t[0], f)) then [x] + t
    else [t[0]] + Insert(x, t[1..], f)
  }

  /**
   * `sorted(jobs, key=...)` in `display_jobs`: CPUs by `CpusKey`, every other
   * column as a string (insertion sort, which is stable like Python's).
   */
  function SortJobs(jobs: seq<JobRecord>, f: Field): seq<JobRecord> {
    if jobs == [] then [] else Insert(jobs[0], SortJobs(jobs[1..], f), f)
  }

  /** `x` joins the group of its key ahead of every record already there. */
  function InsertedGroup(x: JobRecord, t: seq<JobRecord>, f: Field, k: Key): seq<JobRecord> {
    if KeyOf(x, f) == k then [x] + WithKey(t, f, k) else WithKey(t, f, k)
  }

  lemma {:induction false} InsertPermutes(x: JobRecord, t: seq<JobRecord>, f: Field)
    ensures multiset(Insert(x, t, f)) == multiset(t) + multiset{x}
  {
    if !(t == [] || KeyLe(KeyOf(x, f), KeyOf(t[0], f))) {
      InsertPermutes(x, t[1..], f);
      assert t == [t[0]] + t[1..];
    }
  }

  /** A job no later than every job of a sorted list can go in front of it. */
  lemma SortedCons(y: JobRecord, rest: seq<JobRecord>, f: Field)
    requires SortedBy(rest, f)
    requires forall k :: 0 <= k < |rest| ==> KeyLe(KeyOf(y, f), KeyOf(rest[k], f))
    ensures SortedBy([y] + rest, f)
  {
    var r := [y] + rest;
    forall i, j | 0 <= i < j < |r| ensures KeyLe(KeyOf(r[i], f), KeyOf(r[j], f)) {
      if i == 0 {
        assert r[j] == rest[j - 1];
      } else {
        assert r[i] == rest[i - 1] && r[j] == rest[j - 1];
      }
    }
  }

  lemma {:induction false} InsertSorted(x: JobRecord, t: seq<JobRecord>, f: Field)
    requires SortedBy(t, f)
    ensures SortedBy(Insert(x, t, f), f)
  {
    if t == [] || KeyLe(KeyOf(x, f), KeyOf(t[0], f)) {
      forall k | 0 <= k < |t| ensures KeyLe(KeyOf(x, f), KeyOf(t[k], f)) {
        KeyLeTotalOrder(KeyOf(x, f), KeyOf(t[0], f), KeyOf(t[k], f));
      }
      SortedCons(x, t, f);
    } else {
      var rest := Insert(x, t[1..], f);
      SortedTail(t, f);
      InsertSorted(x, t[1..], f);
      InsertPermutes(x, t[1..], f);
      KeyLeTotalOrder(KeyOf(x, f), KeyOf(t[0], f), KeyOf(t[0], f));
      forall k | 0 <= k < |rest| ensures KeyLe(KeyOf(t[0], f), KeyOf(rest[k], f)) {
        assert rest[k] in multiset(rest);
        if rest[k] != x {
          assert rest[k] in multiset(t[1..]);
          var m :| 0 <= m < |t[1..]| && t[1..][m] == rest[k];
          assert t[m + 1] == rest[k];
        }
      }
      SortedCons(t[0], rest, f);
    }
  }
  lemma WithKeyCons(y: JobRecord, s: seq<JobRecord>, f: Field, k: Key)
    ensures WithKey([y] + s, f, k) == (if KeyOf(y, f) == k then [y] else []) + WithKey(s, f, k)
  {
    assert ([y] + s)[1..] == s;
  }

  lemma {:induction false} InsertGroups(x: JobRecord, t: seq<JobRecord>, f: Field, k: Key)
    ensures WithKey(Insert(x, t, f), f, k) == InsertedGroup(x, t, f, k)
  {
    if t == [] || KeyLe(KeyOf(x, f), KeyOf(t[0], f)) {
      WithKeyCons(x, t, f, k);
    } else {
      var rest := Insert(x, t[1..], f);
      InsertGroups(x, t[1..], f, k);
      WithKeyCons(t[0], rest, f, k);
      WithKeyCons(t[0], t[1..], f, k);
      assert t == [t[0]] + t[1..];
      KeyLeTotalOrder(KeyOf(x, f), KeyOf(t[0], f), KeyOf(t[0], f));
      if KeyOf(x, f) == k {
        assert KeyOf(t[0], f) != k;
      }
    }
  }

  lemma {:induction false} SortJobsSorted(jobs: seq<JobRecord>, f: Field)
    ensures SortedBy(SortJobs(jobs, f), f)
  {
    if jobs != [] {
      SortJobsSorted(jobs[1..], f);
      InsertSorted(jobs[0], SortJobs(jobs[1..], f), f);
    }
  }

  lemma {:induction false} SortJobsPermutes(jobs: seq<JobRecord>, f: Field)
    ensures multiset(SortJobs(jobs, f)) == multiset(jobs)
  {
    if jobs != [] {
      SortJobsPermutes(jobs[1..], f);
      InsertPermutes(jobs[0], SortJobs(jobs[1..], f), f);
      assert jobs == [jobs[0]] + jobs[1..];
    }
  }

  lemma {:induction false} SortJobsKeepsGroup(jobs: seq<JobRecord>, f: Field, k: Key)
    ensures WithKey(SortJobs(jobs, f), f, k) == WithKey(jobs, f, k)
  {
    if jobs != [] {
      SortJobsKeepsGroup(jobs[1..], f, k);
      InsertGroups(jobs[0], SortJobs(jobs[1..], f), f, k);
    }
  }

  /** `SortJobs` is a stable sort: ordered by key, a permutation, equal keys kept in input order. */
  lemma SortJobsIsStableSort(jobs: seq<JobRecord>, f: Field)
    ensures StableSortOf(SortJobs(jobs, f), jobs, f)
  {
    SortJobsSorted(jobs, f);
    SortJobsPermutes(jobs, f);
    forall k ensures WithKey(SortJobs(jobs, f), f, k) == WithKey(jobs, f, k) {
      SortJobsKeepsGroup(jobs, f, k);
    }
  }

  /** Sorting neither adds nor drops records. */
  lemma SortJobsKeepsLength(jobs: seq<JobRecord>, f: Field)
    ensures |SortJobs(jobs, f)| == |jobs|
  {
    SortJobsIsStableSort(jobs, f);
    assert |multiset(SortJobs(jobs, f))| == |multiset(jobs)|;
  }

  lemma WithKeyMembers(s: seq<JobRecord>, f: Field, k: Key, x: JobRecord)
    requires x in WithKey(s, f, k)
    ensures x in s && KeyOf(x, f) == k
  {
  }

  lemma HeadHasGroup(s: seq<JobRecord>, f: Field)
    ensures s != [] ==> WithKey(s, f, KeyOf(s[0], f)) != []
  {
  }

  lemma SameGroupsSameEmptiness(a: seq<JobRecord>, b: seq<JobRecord>, f: Field)
    requires forall k :: WithKey(a, f, k) == WithKey(b, f, k)
    ensures a == [] <==> b == []
  {
    HeadHasGroup(a, f);
    HeadHasGroup(b, f);
  }

  /** Sorted sequences with the same groups start with the same record and agree on their tails' groups. */
  lemma {:induction false} SameGroupsSameHead(a: seq<JobRecord>, b: seq<JobRecord>, f: Field)
    requires a != [] && b != []
    requires SortedBy(a, f) && SortedBy(b, f)
    requires forall k :: WithKey(a, f, k) == WithKey(b, f, k)
    ensures a[0] == b[0]
    ensures forall k :: WithKey(a[1..], f, k) == WithKey(b[1..], f, k)
  {
    var ka, kb := KeyOf(a[0], f), KeyOf(b[0], f);
    assert a[0] in WithKey(a, f, ka);
    WithKeyMembers(b, f, ka, a[0]);
    assert b[0] in WithKey(b, f, kb);
    WithKeyMembers(a, f, kb, b[0]);
    KeyLeTotalOrder(ka, kb, ka);
    assert ka == kb;
    assert WithKey(a, f, ka) == [a[0]] + WithKey(a[1..], f, ka);
    assert WithKey(b, f, ka) == [b[0]] + WithKey(b[1..], f, ka);
    assert a[0] == WithKey(a, f, ka)[0] == WithKey(b, f, ka)[0] == b[0];
    forall k ensures WithKey(a[1..], f, k) == WithKey(b[1..], f, k) {
      var p := if KeyOf(a[0], f) == k then [a[0]] else [];
      assert WithKey(a, f, k) == p + WithKey(a[1..], f, k);
      assert WithKey(b, f, k) == p + WithKey(b[1..], f, k);
      assert WithKey(a[1..], f, k) == (p + WithKey(a[1..], f, k))[|p|..];
      assert WithKey(b[1..], f, k) == (p + WithKey(b[1..], f, k))[|p|..];
    }
  }

  /**
   * A stable sort's result is unique: two orderings that are both sorted and
   * agree on the order of every group of equal keys are the same sequence.
   */
  lemma {:induction false} StableSortUnique(a: seq<JobRecord>, b: seq<JobRecord>, f: Field)
    requires SortedBy(a, f) && SortedBy(b, f)
    requires forall k :: WithKey(a, f, k) == WithKey(b, f, k)
    ensures a == b
  {
    SameGroupsSameEmptiness(a, b, f);
    if a != [] {
      SameGroupsSameHead(a, b, f);
      StableSortUnique(a[1..], b[1..], f);
      assert a == [a[0]] + a[1..] && b == [b[0]] + b[1..];
    }
  }

  // ---------------------------------------------------------------- filters

  /** `[j for j in jobs if j[field] == value]`. */
  function Select(jobs: seq<JobRecord>, f: Field, value: string): seq<JobRecord> {
    if jobs == [] then []
    else (if Get(jobs[0], f) == value then [jobs[0]] else []) + Select(jobs[1..], f, value)
  }

  lemma {:induction false} SelectCounts(jobs: seq<JobRecord>, f: Field, value: string)
    ensures forall j :: multiset(Select(jobs, f, value))[j] ==
                         if Get(j, f) == value then multiset(jobs)[j] else 0
  {
    if jobs != [] {
      SelectCounts(jobs[1..], f, value);
      var head := if Get(jobs[0], f) == value then [jobs[0]] else [];
      assert jobs == [jobs[0]] + jobs[1..];
      assert multiset(jobs) == multiset{jobs[0]} + multiset(jobs[1..]);
      assert multiset(Select(jobs, f, value)) == multiset(head) + multiset(Select(jobs[1..], f, value));
    }
  }

  /** The comprehension keeps exactly the matching records, each as often as it occurs. */
  lemma SelectKeepsMatches(jobs: seq<JobRecord>, f: Field, value: string)
    ensures forall j :: j in Select(jobs, f, value) <==> j in jobs && Get(j, f) == value
    ensures forall j :: multiset(Select(jobs, f, value))[j] ==
                         if Get(j, f) == value then multiset(jobs)[j] else 0
  {
    SelectCounts(jobs, f, value);
    forall j ensures j in Select(jobs, f, value) <==> j in jobs && Get(j, f) == value {
      assert j in Select(jobs, f, value) <==> j in multiset(Select(jobs, f, value));
      assert j in jobs <==> j in multiset(jobs);
    }
  }

  lemma SortedTail(jobs: seq<JobRecord>, f: Field)
    requires SortedBy(jobs, f) && jobs != []
    ensures SortedBy(jobs[1..], f)
  {
    forall i, j | 0 <= i < j < |jobs| - 1 ensures KeyLe(KeyOf(jobs[1..][i], f), KeyOf(jobs[1..][j], f)) {
      assert jobs[1..][i] == jobs[i + 1] && jobs[1..][j] == jobs[j + 1];
    }
  }

  /** A sequence is sorted when its tail is and its head is below every later record. */
  lemma ConsSorted(r: seq<JobRecord>, f: Field)
    requires r != [] && SortedBy(r[1..], f)
    requires forall j :: 0 < j < |r| ==> KeyLe(KeyOf(r[0], f), KeyOf(r[j], f))
    ensures SortedBy(r, f)
  {
    forall i, j | 0 <= i < j < |r| ensures KeyLe(KeyOf(r[i], f), KeyOf(r[j], f)) {
      if i > 0 {
        assert r[i] == r[1..][i - 1] && r[j] == r[1..][j - 1];
      }
    }
  }

  lemma {:induction false} SelectSubset(jobs: seq<JobRecord>, g: Field, value: string, y: JobRecord)
    requires y in Select(jobs, g, value)
    ensures y in jobs
  {
    if jobs != [] {
      if y != jobs[0] {
        SelectSubset(jobs[1..], g, value, y);
      }
    }
  }

  lemma HeadIsLeast(jobs: seq<JobRecord>, f: Field, y: JobRecord)
    requires SortedBy(jobs, f) && jobs != [] && y in jobs[1..]
    ensures KeyLe(KeyOf(jobs[0], f), KeyOf(y, f))
  {
    var m :| 0 <= m < |jobs[1..]| && jobs[1..][m] == y;
    assert jobs[m + 1] == y;
  }

  lemma {:induction false} SelectKeepsSorted(jobs: seq<JobRecord>, g: Field, value: string, f: Field)
    requires SortedBy(jobs, f)
    ensures SortedBy(Select(jobs, g, value), f)
  {
    if jobs != [] {
      var rest := Select(jobs[1..], g, value);
      SortedTail(jobs, f);
      SelectKeepsSorted(jobs[1..], g, value, f);
      if Get(jobs[0], g) == value {
        var r := [jobs[0]] + rest;
        assert Select(jobs, g, value) == r;
        forall j | 0 < j < |r| ensures KeyLe(KeyOf(r[0], f), KeyOf(r[j], f)) {
          assert r[j] == rest[j - 1];
          SelectSubset(jobs[1..], g, value, r[j]);
          HeadIsLeast(jobs, f, r[j]);
        }
        ConsSorted(r, f);
      } else {
        assert Select(jobs, g, value) == rest;
      }
    }
  }

  lemma {:induction false} SelectCommutesWithGroups(jobs: seq<JobRecord>, g: Field, value: string, f: Field, k: Key)
    ensures WithKey(Select(jobs, g, value), f, k) == Select(WithKey(jobs, f, k), g, value)
  {
    if jobs != [] {
      SelectCommutesWithGroups(jobs[1..], g, value, f, k);
      var x := jobs[0];
      var sel := Select(jobs[1..], g, value);
      var grp := WithKey(jobs[1..], f, k);
      var inSel := Get(x, g) == value;
      var inGrp := KeyOf(x, f) == k;
      if inSel {
        assert Select(jobs, g, value) == [x] + sel;
        assert ([x] + sel)[1..] == sel;
      } else {
        assert Select(jobs, g, value) == sel;
      }
      if inGrp {
        assert WithKey(jobs, f, k) == [x] + grp;
        assert ([x] + grp)[1..] == grp;
      } else {
        assert WithKey(jobs, f, k) == grp;
      }
    }
  }

  /**
   * Sorting a filtered list (`display_jobs(filtered, sort_by)`) gives the
   * same rows as filtering the sorted table: the stable sort and the
   * comprehension filter commute.
   */
  lemma SelectThenSort(jobs: seq<JobRecord>, g: Field, value: string, f: Field)
    ensures SortJobs(Select(jobs, g, value), f) == Select(SortJobs(jobs, f), g, value)
  {
    var a := SortJobs(Select(jobs, g, value), f);
    var b := Select(SortJobs(jobs, f), g, value);
    SortJobsIsStableSort(Select(jobs, g, value), f);
    SortJobsIsStableSort(jobs, f);
    SelectKeepsSorted(SortJobs(jobs, f), g, value, f);
    forall k ensures WithKey(a, f, k) == WithKey(b, f, k) {
      SelectCommutesWithGroups(jobs, g, value, f, k);
      SelectCommutesWithGroups(SortJobs(jobs, f), g, value, f, k);
    }
    StableSortUnique(a, b, f);
  }

  /** Menu option 3: the status typed by the operator, stripped and upper-cased, selects by `Status`. */
  function StatusFilter(jobs: seq<JobRecord>, entered: string): (r: seq<JobRecord>)
    ensures forall j :: j in r <==> j in jobs && j.status == Upper(Strip(entered))
  {
    SelectKeepsMatches(jobs, Status, Upper(Strip(entered)));
    Select(jobs, Status, Upper(Strip(entered)))
  }

  /** Menu option 4: the owner typed by the operator, stripped, selects by `Owner`. */
  function OwnerFilter(jobs: seq<JobRecord>, entered: string): (r: seq<JobRecord>)
    ensures forall j :: j in r <==> j in jobs && j.owner == Strip(entered)
  {
    SelectKeepsMatches(jobs, Owner, Strip(entered));
    Select(jobs, Owner, Strip(entered))
  }

  // ---------------------------------------------------------------- lookup

  /**
   * The search loop of `kill_job`: the index of the first record, in table
   * order, whose JobID contains `token`.
   */
  function FirstMatch(jobs: seq<JobRecord>, token: string): (r: Option<nat>)
    ensures r.Some? ==> r.value < |jobs| && Contains(jobs[r.value].jobId, token)
    ensures r.Some? ==> forall k :: 0 <= k < r.value ==> !Contains(jobs[k].jobId, token)
    ensures r.None? ==> forall k :: 0 <= k < |jobs| ==> !Contains(jobs[k].jobId, token)
  {
    if jobs == [] then None
    else if Contains(jobs[0].jobId, token) then Some(0)
    else match FirstMatch(jobs[1..], token)
      case Some(i) => Some(i + 1)
      case None => None
  }

  /** The match condition of `view_log`: `token in JobID or JobID.startswith(token + '.')`. */
  predicate ViewLogMatch(jobId: string, token: string) {
    Contains(jobId, token) || StartsWith(jobId, token + ".")
  }

  /** The second disjunct of `view_log`'s test adds nothing: it is plain containment. */
  lemma ViewLogMatchIsContains(jobId: string, token: string)
    ensures ViewLogMatch(jobId, token) <==> Contains(jobId, token)
  {
    if StartsWith(jobId, token + ".") {
      assert jobId[..|token|] == (token + ".")[..|token|] == token;
      StartsWithContains(jobId, token);
    }
  }

  /** An empty token is contained in every JobID, so it picks the first job of the table. */
  lemma EmptyTokenPicksFirst(jobs: seq<JobRecord>)
    requires jobs != []
    ensures FirstMatch(jobs, "") == Some(0)
  {
    assert StartsWith(jobs[0].jobId, "");
  }

  // ---------------------------------------------------------------- worked cases

  function WithCpus(cpus: string): JobRecord {
    JobRecord("srv", "1.srv", "job", "/w", cpus, "R", "me", "1.0Mb")
  }

  /** CPUs sort numerically, a non-numeric value counting as 0: "16", "4", "N/A" become "N/A", "4", "16". */
  lemma CpusSortIsNumeric()
    ensures SortJobs([WithCpus("16"), WithCpus("4"), WithCpus("N/A")], CPUs)
         == [WithCpus("N/A"), WithCpus("4"), WithCpus("16")]
  {
    var a, b, n := WithCpus("16"), WithCpus("4"), WithCpus("N/A");
    CpusKeys();
    assert [a, b, n][1..] == [b, n] && [b, n][1..] == [n];
    assert SortJobs([n], CPUs) == [n];
    assert Insert(b, [n], CPUs) == [n, b];
    assert SortJobs([b, n], CPUs) == [n, b];
    assert Insert(a, [b], CPUs) == [b, a];
    assert Insert(a, [n, b], CPUs) == [n, b, a];
  }

  lemma CpusKeys()
    ensures KeyOf(WithCpus("16"), CPUs) == Num(16)
    ensures KeyOf(WithCpus("4"), CPUs) == Num(4)
    ensures KeyOf(WithCpus("N/A"), CPUs) == Num(0)
  {
    assert !IsDigit('N');
    assert ParseDigits("4") == 4;
    assert ParseDigits("1") == 1;
    assert ParseDigits("16") == 16;
  }

  function WithId(jobId: string): JobRecord {
    JobRecord("srv", jobId, "job", "/w", "1", "R", "me", "1.0Mb")
  }

  /**
   * First match wins: with "98123" listed before "123.server1", the token
   * "123" picks "98123" although "123.server1" is the job whose number it is.
   */
  lemma PartialIdIsAmbiguous()
    ensures Contains("123.server1", "123")
    ensures FirstMatch([WithId("98123"), WithId("123.server1")], "123") == Some(0)
  {
    assert StartsWith("123.server1", "123");
    assert StartsWith("98123"[2..], "123");
    assert "98123"[1..][1..] == "98123"[2..];
  }
}
