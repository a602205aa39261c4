/** The poll draft's option list and the pure transforms its handlers apply to it. */
module PollDraft {

  /** A client-side option identifier (a UUID string in the source). */
  type Id = string

  /** One row of the draft: its stable identifier and the text typed into it. */
  datatype DraftOption = DraftOption(id: Id, value: string)

  /** The identifiers of the rows, in list order. */
  function Ids(opts: seq<DraftOption>): seq<Id> {
    seq(|opts|, k requires 0 <= k < |opts| => opts[k].id)
  }

  ghost predicate UniqueIds(opts: seq<DraftOption>) {
    forall i, j :: 0 <= i < j < |opts| ==> opts[i].id != opts[j].id
  }

  /** What every reachable draft satisfies: at least two rows, no identifier twice. */
  ghost predicate WellFormed(opts: seq<DraftOption>) {
    |opts| >= 2 && UniqueIds(opts)
  }

  /** The two blank rows a draft starts with and is reset to. */
  function Blank(idA: Id, idB: Id): (r: seq<DraftOption>)
    ensures idA != idB ==> WellFormed(r)
    ensures forall k :: 0 <= k < |r| ==> r[k].value == ""
  {
    [DraftOption(idA, ""), DraftOption(idB, "")]
  }

  /** `options.map(o => o.id === id ? {...o, value} : o)`: same rows, same
      identifiers in the same order; exactly the rows carrying `id` take the
      new text. */
  function Edited(opts: seq<DraftOption>, id: Id, value: string): (r: seq<DraftOption>)
    ensures |r| == |opts| && Ids(r) == Ids(opts)
    ensures forall k :: 0 <= k < |r| ==>
      r[k].id == opts[k].id && r[k].value == (if opts[k].id == id then value else opts[k].value)
  {
    if opts == [] then []
    else
      var head := if opts[0].id == id then opts[0].(value := value) else opts[0];
      var r := [head] + Edited(opts[1..], id, value);
      assert forall k :: 0 <= k < |r| ==> r[k].id == opts[k].id;
      r
  }

  /** Editing an identifier no row carries changes nothing. */
  lemma EditedAbsent(opts: seq<DraftOption>, id: Id, value: string)
    requires id !in Ids(opts)
    ensures Edited(opts, id, value) == opts
  {
    var r := Edited(opts, id, value);
    forall k | 0 <= k < |opts| ensures r[k] == opts[k] {
      assert Ids(opts)[k] == opts[k].id;
    }
  }

  /** Editing the same row twice keeps only the second text. */
  lemma EditedLastWins(opts: seq<DraftOption>, id: Id, v1: string, v2: string)
    ensures Edited(Edited(opts, id, v1), id, v2) == Edited(opts, id, v2)
  {
    var a, b := Edited(Edited(opts, id, v1), id, v2), Edited(opts, id, v2);
    assert forall k :: 0 <= k < |a| ==> a[k] == b[k];
  }

  /** Editing keeps the draft well formed: identifiers and length do not move. */
  lemma EditedWellFormed(opts: seq<DraftOption>, id: Id, value: string)
    requires WellFormed(opts)
    ensures WellFormed(Edited(opts, id, value))
  {
  }

  /** `[...options, { id: uuidv4(), value: "" }]` with the new identifier `newId`. */
  function Appended(opts: seq<DraftOption>, newId: Id): (r: seq<DraftOption>)
    ensures |r| == |opts| + 1 && r[..|opts|] == opts
    ensures r[|opts|] == DraftOption(newId, "")
  {
    opts + [DraftOption(newId, "")]
  }

  /** Appending a row under an identifier not yet in use keeps the draft well formed. */
  lemma AppendedWellFormed(opts: seq<DraftOption>, newId: Id)
    requires WellFormed(opts) && newId !in Ids(opts)
    ensures WellFormed(Appended(opts, newId))
  {
    var r := Appended(opts, newId);
    forall i, j | 0 <= i < j < |r| ensures r[i].id != r[j].id {
      if j == |opts| {
        assert Ids(opts)[i] == opts[i].id;
      }
    }
  }

  /** `options.filter(o => o.id !== id)`: no kept row carries `id`. */
  function Removed(opts: seq<DraftOption>, id: Id): (r: seq<DraftOption>)
    ensures |r| <= |opts|
    ensures forall k :: 0 <= k < |r| ==> r[k].id != id
  {
    if opts == [] then []
    else (if opts[0].id == id then [] else [opts[0]]) + Removed(opts[1..], id)
  }

  /** The rows kept are exactly the rows of `opts` whose identifier differs
      from `id`. */
  lemma {:induction false} RemovedMembers(opts: seq<DraftOption>, id: Id, o: DraftOption)
    ensures o in Removed(opts, id) <==> o in opts && o.id != id
  {
    if opts != [] {
      assert opts == [opts[0]] + opts[1..];
      RemovedMembers(opts[1..], id, o);
    }
  }

  /** Filtering distributes over concatenation, so the order of the kept rows is
      their order in `opts`. */
  lemma {:induction false} RemovedConcat(a: seq<DraftOption>, b: seq<DraftOption>, id: Id)
    ensures Removed(a + b, id) == Removed(a, id) + Removed(b, id)
  {
    if a == [] {
      assert a + b == b;
    } else {
      assert (a + b)[0] == a[0] && (a + b)[1..] == a[1..] + b;
      RemovedConcat(a[1..], b, id);
    }
  }

  /** Deleting an identifier that no row carries keeps every row. */
  lemma {:induction false} RemovedAbsent(opts: seq<DraftOption>, id: Id)
    requires forall k :: 0 <= k < |opts| ==> opts[k].id != id
    ensures Removed(opts, id) == opts
  {
    if opts != [] {
      RemovedAbsent(opts[1..], id);
    }
  }

  lemma NotInIds(opts: seq<DraftOption>, id: Id)
    requires id !in Ids(opts)
    ensures forall k :: 0 <= k < |opts| ==> opts[k].id != id
  {
    forall k | 0 <= k < |opts| ensures opts[k].id != id {
      assert Ids(opts)[k] == opts[k].id;
    }
  }

  /** With unique identifiers, deleting the identifier of row `k` removes that
      row and no other, keeping the rest in order. */
  lemma RemovedAt(opts: seq<DraftOption>, k: nat)
    requires UniqueIds(opts) && k < |opts|
    ensures Removed(opts, opts[k].id) == opts[..k] + opts[k + 1..]
  {
    var id := opts[k].id;
    var before, after := opts[..k], opts[k + 1..];
    forall i | 0 <= i < |before| ensures before[i].id != id {
      assert before[i] == opts[i];
    }
    forall i | 0 <= i < |after| ensures after[i].id != id {
      assert after[i] == opts[k + 1 + i];
    }
    assert opts == before + [opts[k]] + after;
    RemovedSplit(before, opts[k], after);
  }

  /** Deleting the identifier of a row whose identifier occurs nowhere else
      leaves the rows around it, joined. */
  lemma RemovedSplit(before: seq<DraftOption>, row: DraftOption, after: seq<DraftOption>)
    requires forall i :: 0 <= i < |before| ==> before[i].id != row.id
    requires forall i :: 0 <= i < |after| ==> after[i].id != row.id
    ensures Removed(before + [row] + after, row.id) == before + after
  {
    var id := row.id;
    assert Removed([row], id) == [] by {
      assert [row][1..] == [];
    }
    calc {
      Removed(before + [row] + after, id);
      { RemovedConcat(before + [row], after, id); }
      Removed(before + [row], id) + Removed(after, id);
      { RemovedConcat(before, [row], id); }
      Removed(before, id) + Removed([row], id) + Removed(after, id);
      { RemovedAbsent(before, id); RemovedAbsent(after, id); }
      before + [] + after;
      { assert before + [] == before; }
      before + after;
    }
  }

  /** Dropping one row keeps the remaining identifiers unique. */
  lemma UniqueWithout(opts: seq<DraftOption>, k: nat)
    requires UniqueIds(opts) && k < |opts|
    ensures UniqueIds(opts[..k] + opts[k + 1..])
  {
    var r := opts[..k] + opts[k + 1..];
    forall i, j | 0 <= i < j < |r| ensures r[i].id != r[j].id {
      var i', j' := if i < k then i else i + 1, if j < k then j else j + 1;
      assert r[i] == opts[i'] && r[j] == opts[j'];
    }
  }

  /** `deleteOption` past its guard: on a well-formed draft of more than two
      rows the result is well formed again, one row shorter when `id` is
      present and unchanged in length when it is absent. */
  lemma RemovedWellFormed(opts: seq<DraftOption>, id: Id)
    requires WellFormed(opts) && |opts| > 2
    ensures WellFormed(Removed(opts, id))
    ensures |Removed(opts, id)| == if id in Ids(opts) then |opts| - 1 else |opts|
  {
    if id in Ids(opts) {
      var k :| 0 <= k < |opts| && Ids(opts)[k] == id;
      RemovedAt(opts, k);
      UniqueWithout(opts, k);
    } else {
      NotInIds(opts, id);
      RemovedAbsent(opts, id);
    }
  }
}
