/** The hash-chained audit trail: what verification checks, and what it proves.

    SHA-256 and canonical JSON are parameters. Nothing here assumes that the hash
    is injective (no function to 64 characters is) or that the text is: instead each
    theorem says that the logs agree, or that they themselves exhibit a broken hash. */
module AuditChain {
  import opened Collections
  import opened JsonValues

  /** The column values of a business row before or after a change. */
  type Image = map<string, Json>

  /** The columns of an audit row that its hash covers. */
  datatype Entry = Entry(
    table: string, rowPk: int, action: string, actorId: Option<int>, requestId: Option<string>,
    createdAt: int, oldData: Option<Image>, newData: Option<Image>)

  datatype AuditRow = AuditRow(id: nat, entry: Entry, prevHash: string, rowHash: string)

  /** The digest and the canonical text of a row's payload. */
  datatype Hashing = Hashing(sha: string -> string, canonical: Entry -> string)

  const GENESIS: string := "0000000000000000000000000000000000000000000000000000000000000000"

  /** Digests are 64 characters long. */
  ghost predicate WellBehaved(h: Hashing) {
    forall s :: |h.sha(s)| == 64
  }

  function HashedText(h: Hashing, prev: string, e: Entry): string {
    prev + "|" + h.canonical(e)
  }

  function RowHash(h: Hashing, prev: string, e: Entry): string {
    h.sha(HashedText(h, prev, e))
  }

  /** The hash row `i` must chain to; for `i == |rows|`, the head of the chain. */
  function HashBefore(rows: seq<AuditRow>, i: nat): string
    requires i <= |rows|
  {
    if i == 0 then GENESIS else rows[i - 1].rowHash
  }

  predicate Linked(h: Hashing, rows: seq<AuditRow>, i: nat)
    requires i < |rows|
  {
    && rows[i].prevHash == HashBefore(rows, i)
    && rows[i].rowHash == RowHash(h, HashBefore(rows, i), rows[i].entry)
  }

  ghost predicate ChainHolds(h: Hashing, rows: seq<AuditRow>) {
    forall i :: 0 <= i < |rows| ==> Linked(h, rows, i)
  }

  function Head(rows: seq<AuditRow>): string {
    HashBefore(rows, |rows|)
  }

  /** Names the first row that does not extend the valid chain before it. */
  method VerifyChain(h: Hashing, rows: seq<AuditRow>) returns (broken: Option<nat>)
    ensures broken.None? <==> ChainHolds(h, rows)
    ensures broken.Some? ==> exists k ::
              0 <= k < |rows| && broken.value == rows[k].id
              && ChainHolds(h, rows[..k]) && !ChainHolds(h, rows[..k + 1])
  {
    var prev := GENESIS;
    var i := 0;
    while i < |rows|
      invariant 0 <= i <= |rows|
      invariant prev == HashBefore(rows, i)
      invariant forall j :: 0 <= j < i ==> Linked(h, rows, j)
    {
      var row := rows[i];
      if row.prevHash != prev || row.rowHash != RowHash(h, prev, row.entry) {
        PrefixLinks(h, rows, i);
        PrefixLinks(h, rows, i + 1);
        assert !Linked(h, rows[..i + 1], i);
        return Some(row.id);
      }
      prev := row.rowHash;
      i := i + 1;
    }
    return None;
  }

  lemma PrefixLinks(h: Hashing, rows: seq<AuditRow>, k: nat)
    requires k <= |rows|
    ensures forall j :: 0 <= j < k ==> (Linked(h, rows[..k], j) <==> Linked(h, rows, j))
  {
  }

  // ---- extending a chain -----------------------------------------------------

  /** The rows a flush writes for `entries` after a chain whose head is `prev`. */
  ghost function Chained(h: Hashing, prev: string, entries: seq<Entry>, firstId: nat): (rows: seq<AuditRow>)
    ensures |rows| == |entries|
    decreases |entries|
  {
    if entries == [] then [] else
      var rowHash := RowHash(h, prev, entries[0]);
      [AuditRow(firstId, entries[0], prev, rowHash)] + Chained(h, rowHash, entries[1..], firstId + 1)
  }

  /** Row `k` records the `k`-th entry, whole, under the next id, and links to the row before it. */
  predicate RecordsAt(h: Hashing, head: string, entries: seq<Entry>, firstId: nat, rows: seq<AuditRow>, k: nat)
    requires k < |rows| <= |entries|
  {
    var prev := if k == 0 then head else rows[k - 1].rowHash;
    && rows[k].entry == entries[k] && rows[k].id == firstId + k
    && rows[k].prevHash == prev && rows[k].rowHash == RowHash(h, prev, entries[k])
  }

  /** The loop of the flush listener. */
  method WriteAuditRows(h: Hashing, head: string, entries: seq<Entry>, firstId: nat) returns (rows: seq<AuditRow>)
    ensures |rows| == |entries| && forall k :: 0 <= k < |rows| ==> RecordsAt(h, head, entries, firstId, rows, k)
    ensures rows == Chained(h, head, entries, firstId)
  {
    rows := [];
    var prev := head;
    var i := 0;
    while i < |entries|
      invariant 0 <= i <= |entries| && |rows| == i && prev == if i == 0 then head else rows[i - 1].rowHash
      invariant forall k :: 0 <= k < i ==> RecordsAt(h, head, entries, firstId, rows, k)
    {
      var rowHash := RowHash(h, prev, entries[i]);
      ghost var before := rows;
      rows := rows + [AuditRow(firstId + i, entries[i], prev, rowHash)];
      forall k | 0 <= k < i ensures RecordsAt(h, head, entries, firstId, rows, k) {
        assert RecordsAt(h, head, entries, firstId, before, k);
      }
      prev := rowHash;
      i := i + 1;
    }
    RecordedIsChained(h, head, entries, firstId, rows);
  }

  /** Only the rows of a flush record its entries in this way. */
  lemma {:induction false} RecordedIsChained(
    h: Hashing, head: string, entries: seq<Entry>, firstId: nat, rows: seq<AuditRow>)
    requires |rows| == |entries| && forall k :: 0 <= k < |rows| ==> RecordsAt(h, head, entries, firstId, rows, k)
    ensures rows == Chained(h, head, entries, firstId)
    decreases |entries|
  {
    if entries != [] {
      assert RecordsAt(h, head, entries, firstId, rows, 0);
      var rest, restEntries, nextId := rows[1..], entries[1..], firstId + 1;
      forall k | 0 <= k < |rest| ensures RecordsAt(h, rows[0].rowHash, restEntries, nextId, rest, k) {
        assert RecordsAt(h, head, entries, firstId, rows, k + 1);
      }
      RecordedIsChained(h, rows[0].rowHash, restEntries, nextId, rest);
      assert rows == [rows[0]] + rest;
    }
  }

  /** What rows record, in order. */
  function Entries(rows: seq<AuditRow>): (entries: seq<Entry>)
    ensures |entries| == |rows|
  {
    seq(|rows|, i requires 0 <= i < |rows| => rows[i].entry)
  }

  /** A flush records the entries it is given: each whole, in order and once. */
  lemma {:induction false} ChainedRecords(h: Hashing, head: string, entries: seq<Entry>, firstId: nat, k: nat)
    requires k < |entries|
    ensures RecordsAt(h, head, entries, firstId, Chained(h, head, entries, firstId), k)
    decreases k
  {
    if k > 0 {
      ChainedRecords(h, RowHash(h, head, entries[0]), entries[1..], firstId + 1, k - 1);
    }
  }

  /** A prefix of the rows written after a valid chain extends that chain, with
      consecutive ids. */
  lemma {:induction false} ChainedExtends(h: Hashing, rows: seq<AuditRow>, entries: seq<Entry>, firstId: nat, k: nat)
    requires ChainHolds(h, rows) && k <= |entries|
    ensures ChainHolds(h, rows + Chained(h, Head(rows), entries, firstId)[..k])
    ensures forall i :: 0 <= i < k ==> Chained(h, Head(rows), entries, firstId)[i].id == firstId + i
    decreases k
  {
    var written := Chained(h, Head(rows), entries, firstId);
    if k == 0 {
      assert rows + written[..0] == rows;
    } else {
      var first := written[0];
      PrefixLinks(h, rows + [first], |rows|);
      assert (rows + [first])[..|rows|] == rows && Linked(h, rows + [first], |rows|);
      ChainedExtends(h, rows + [first], entries[1..], firstId + 1, k - 1);
      var tail := Chained(h, first.rowHash, entries[1..], firstId + 1);
      assert written == [first] + tail;
      assert written[..k] == [first] + tail[..k - 1];
      assert rows + written[..k] == (rows + [first]) + tail[..k - 1];
    }
  }

  // ---- tamper evidence -------------------------------------------------------

  function TextAt(h: Hashing, rows: seq<AuditRow>, i: nat): string
    requires i < |rows|
  {
    HashedText(h, rows[i].prevHash, rows[i].entry)
  }

  ghost predicate Collision(h: Hashing, a: seq<AuditRow>, b: seq<AuditRow>, i: nat, j: nat)
    requires i < |a| && j < |b|
  {
    TextAt(h, a, i) != TextAt(h, b, j) && h.sha(TextAt(h, a, i)) == h.sha(TextAt(h, b, j))
  }

  ghost predicate HitsGenesis(h: Hashing, rows: seq<AuditRow>, i: nat)
    requires i < |rows|
  {
    h.sha(TextAt(h, rows, i)) == GENESIS
  }

  /** Two different entries are written as one text. */
  ghost predicate Ambiguous(h: Hashing, a: seq<AuditRow>, b: seq<AuditRow>, i: nat, j: nat)
    requires i < |a| && j < |b|
  {
    a[i].entry != b[j].entry && h.canonical(a[i].entry) == h.canonical(b[j].entry)
  }

  /** The two logs hold two different entries with one text, two different texts with one
      digest, or a text whose digest is the genesis value. */
  ghost predicate HashBroken(h: Hashing, a: seq<AuditRow>, b: seq<AuditRow>) {
    || (exists i, j :: 0 <= i < |a| && 0 <= j < |b| && Ambiguous(h, a, b, i, j))
    || (exists i, j :: 0 <= i < |a| && 0 <= j < |b| && Collision(h, a, b, i, j))
    || (exists i :: 0 <= i < |a| && HitsGenesis(h, a, i))
    || (exists j :: 0 <= j < |b| && HitsGenesis(h, b, j))
  }

  /** Equal in everything the chain covers: all but the row ids. */
  ghost predicate SameContent(a: seq<AuditRow>, b: seq<AuditRow>) {
    |a| == |b| && forall i :: 0 <= i < |a| ==> a[i].(id := 0) == b[i].(id := 0)
  }

  lemma PrevHashLength(h: Hashing, rows: seq<AuditRow>, i: nat)
    requires WellBehaved(h) && ChainHolds(h, rows) && i < |rows|
    ensures |rows[i].prevHash| == 64
  {
    assert Linked(h, rows, i);
    if i > 0 {
      assert Linked(h, rows, i - 1);
    }
  }

  lemma LastRowsAgree(h: Hashing, a: seq<AuditRow>, b: seq<AuditRow>)
    requires WellBehaved(h) && a != [] && b != []
    requires ChainHolds(h, a) && ChainHolds(h, b) && Head(a) == Head(b)
    ensures HashBroken(h, a, b) || a[|a| - 1].(id := 0) == b[|b| - 1].(id := 0)
  {
    var i, j := |a| - 1, |b| - 1;
    assert Linked(h, a, i) && Linked(h, b, j);
    if TextAt(h, a, i) != TextAt(h, b, j) {
      assert Collision(h, a, b, i, j);
    } else {
      PrevHashLength(h, a, i);
      PrevHashLength(h, b, j);
      var ta, tb := TextAt(h, a, i), TextAt(h, b, j);
      assert ta[..64] == a[i].prevHash && tb[..64] == b[j].prevHash;
      assert ta[65..] == h.canonical(a[i].entry) && tb[65..] == h.canonical(b[j].entry);
      assert a[i].entry != b[j].entry ==> Ambiguous(h, a, b, i, j);
    }
  }

  lemma BrokenInPrefix(h: Hashing, a: seq<AuditRow>, b: seq<AuditRow>)
    requires a != [] && b != []
    requires HashBroken(h, a[..|a| - 1], b[..|b| - 1])
    ensures HashBroken(h, a, b)
  {
    var a', b' := a[..|a| - 1], b[..|b| - 1];
    if i, j :| 0 <= i < |a'| && 0 <= j < |b'| && Ambiguous(h, a', b', i, j) {
      assert Ambiguous(h, a, b, i, j);
    } else if i, j :| 0 <= i < |a'| && 0 <= j < |b'| && Collision(h, a', b', i, j) {
      assert Collision(h, a, b, i, j);
    } else if i :| 0 <= i < |a'| && HitsGenesis(h, a', i) {
      assert HitsGenesis(h, a, i);
    } else {
      var j :| 0 <= j < |b'| && HitsGenesis(h, b', j);
      assert HitsGenesis(h, b, j);
    }
  }

  /** A retained head pins down the whole log before it: two logs that both verify
      and end in the same hash agree row for row, or one of them breaks the hash. */
  lemma {:induction false} HeadDeterminesLog(h: Hashing, a: seq<AuditRow>, b: seq<AuditRow>)
    requires WellBehaved(h)
    requires ChainHolds(h, a) && ChainHolds(h, b) && Head(a) == Head(b)
    ensures SameContent(a, b) || HashBroken(h, a, b)
    decreases |a|
  {
    if a != [] && b != [] {
      LastRowsAgree(h, a, b);
      if !HashBroken(h, a, b) {
        var m, n := |a| - 1, |b| - 1;
        PrefixLinks(h, a, m);
        PrefixLinks(h, b, n);
        assert Linked(h, a, m) && Linked(h, b, n);
        assert Head(a[..m]) == a[m].prevHash == b[n].prevHash == Head(b[..n]);
        HeadDeterminesLog(h, a[..m], b[..n]);
        if HashBroken(h, a[..m], b[..n]) {
          BrokenInPrefix(h, a, b);
        } else {
          assert a == a[..m] + [a[m]] && b == b[..n] + [b[n]];
        }
      }
    } else if a != [] {
      assert Linked(h, a, |a| - 1);
      assert HitsGenesis(h, a, |a| - 1);
    } else if b != [] {
      assert Linked(h, b, |b| - 1);
      assert HitsGenesis(h, b, |b| - 1);
    }
  }

  /** Any edit, reordering, insertion or removal behind a retained head is reported. */
  lemma TamperingIsReported(h: Hashing, rows: seq<AuditRow>, tampered: seq<AuditRow>)
    requires WellBehaved(h) && ChainHolds(h, rows)
    requires Head(tampered) == Head(rows) && !SameContent(rows, tampered)
    requires !HashBroken(h, rows, tampered)
    ensures !ChainHolds(h, tampered)
  {
    if ChainHolds(h, tampered) {
      HeadDeterminesLog(h, rows, tampered);
    }
  }

  /** What the chain alone cannot show: cutting rows off the end leaves a log that verifies. */
  lemma TruncationVerifies(h: Hashing, rows: seq<AuditRow>, k: nat)
    requires ChainHolds(h, rows) && k <= |rows|
    ensures ChainHolds(h, rows[..k])
  {
    PrefixLinks(h, rows, k);
  }

  /** The hypothesis can be met: a digest that pads or cuts its text to 64 characters. */
  lemma SomeDigestIsWellBehaved(canonical: Entry -> string) returns (h: Hashing)
    ensures WellBehaved(h) && h.canonical == canonical
  {
    h := Hashing((s: string) => (s + GENESIS)[..64], canonical);
  }
}
