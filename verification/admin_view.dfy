/** The admin page's dataset operations: looking up the selected pair, deleting
    a record, saving (adding or updating) a record, and adding a pair. Each
    builds a new dataset from the previous one. */
module AdminView {
  import opened Types
  import opened Text
  import opened Sequences
  import opened DateSort
  import DataService

  // ---------------------------------------------------------------------
  // Selection and lookup
  // ---------------------------------------------------------------------

  /** The pair selected when the page opens: the first pair's name if it is
      non-empty, otherwise "EURUSD". */
  function InitialSelection(d: AppData): (name: string)
    ensures d != [] && d[0].pair != "" ==> name == d[0].pair
    ensures (d == [] || d[0].pair == "") ==> name == "EURUSD"
  {
    if d != [] && d[0].pair != "" then d[0].pair else "EURUSD"
  }

  /** The records shown: those of the first pair with the selected name, or none. */
  function SelectedRecords(d: AppData, selected: string): (r: seq<CotRecord>)
    ensures (forall i :: 0 <= i < |d| ==> d[i].pair != selected) ==> r == []
    ensures forall i :: (0 <= i < |d| && d[i].pair == selected &&
                         forall k :: 0 <= k < i ==> d[k].pair != selected) ==> r == d[i].data
  {
    if d == [] then []
    else if d[0].pair == selected then d[0].data
    else SelectedRecords(d[1..], selected)
  }

  // ---------------------------------------------------------------------
  // Delete
  // ---------------------------------------------------------------------

  /** The test "does not carry `id`". */
  function NotId(id: string): CotRecord -> bool {
    (r: CotRecord) => r.id != id
  }

  /** The records whose id differs from `id`, in their original order. */
  function RemoveId(records: seq<CotRecord>, id: string): (r: seq<CotRecord>)
    ensures forall k :: 0 <= k < |r| ==> r[k].id != id && r[k] in records
    ensures forall k :: 0 <= k < |records| && records[k].id != id ==> records[k] in r
    ensures SubsequenceOf(r, records)
    ensures forall x :: multiset(r)[x] == if x.id != id then multiset(records)[x] else 0
  {
    FilterCounts(records, NotId(id));
    Filter(records, NotId(id))
  }

  /** Removing an id nobody carries changes nothing. */
  lemma RemoveAbsentId(records: seq<CotRecord>, id: string)
    requires !HasId(records, id)
    ensures RemoveId(records, id) == records
  {
    FilterKeepsAll(records, NotId(id));
  }

  /** Deleting a record from every pair entry with the selected name. */
  function DeleteRecord(d: AppData, selected: string, id: string): (r: AppData)
    ensures |r| == |d|
    ensures forall i :: 0 <= i < |d| ==> r[i].pair == d[i].pair
    ensures forall i :: 0 <= i < |d| && d[i].pair != selected ==> r[i] == d[i]
    ensures forall i :: 0 <= i < |d| && d[i].pair == selected ==> r[i].data == RemoveId(d[i].data, id)
  {
    seq(|d|, i requires 0 <= i < |d| =>
      if d[i].pair == selected then PairData(d[i].pair, RemoveId(d[i].data, id)) else d[i])
  }

  /** Deleting an id that the selected pair does not hold changes nothing. */
  lemma DeleteAbsentIdUnchanged(d: AppData, selected: string, id: string)
    requires forall i :: 0 <= i < |d| && d[i].pair == selected ==> !HasId(d[i].data, id)
    ensures DeleteRecord(d, selected, id) == d
  {
    var r := DeleteRecord(d, selected, id);
    forall i | 0 <= i < |d| ensures r[i] == d[i] {
      if d[i].pair == selected { RemoveAbsentId(d[i].data, id); }
    }
  }

  /** Deleting the same id twice is deleting it once. */
  lemma DeleteIdempotent(d: AppData, selected: string, id: string)
    ensures DeleteRecord(DeleteRecord(d, selected, id), selected, id) == DeleteRecord(d, selected, id)
  {
    var once := DeleteRecord(d, selected, id);
    forall i | 0 <= i < |d| && d[i].pair == selected
      ensures RemoveId(once[i].data, id) == once[i].data
    {
      FilterIdempotent(d[i].data, NotId(id));
    }
  }

  /** After a delete, the page shows the previously shown records minus that id. */
  lemma {:induction false} DeleteThenLookup(d: AppData, selected: string, id: string)
    ensures SelectedRecords(DeleteRecord(d, selected, id), selected) ==
            RemoveId(SelectedRecords(d, selected), id)
  {
    if d != [] {
      var r := DeleteRecord(d, selected, id);
      if d[0].pair != selected {
        DeleteThenLookup(d[1..], selected, id);
        assert DeleteRecord(d[1..], selected, id) == r[1..];
      }
    }
  }

  // ---------------------------------------------------------------------
  // Save
  // ---------------------------------------------------------------------

  /** The id the saved record is stored under: its own id when it replaces
      records or is non-empty, the supplied fresh id otherwise. */
  function SavedId(records: seq<CotRecord>, rec: CotRecord, freshId: string): string {
    if !HasId(records, rec.id) && rec.id == "" then freshId else rec.id
  }

  /** The record as stored. */
  function SavedRecord(records: seq<CotRecord>, rec: CotRecord, freshId: string): CotRecord {
    rec.(id := SavedId(records, rec, freshId))
  }

  /** Every record carrying `rec.id` replaced by `rec`, in place. */
  function ReplaceById(records: seq<CotRecord>, rec: CotRecord): (r: seq<CotRecord>)
    ensures |r| == |records|
  {
    seq(|records|, k requires 0 <= k < |records| =>
      if records[k].id == rec.id then rec else records[k])
  }

  /** Before sorting: an existing id is replaced in place, a new one goes on top. */
  function Upsert(records: seq<CotRecord>, rec: CotRecord, freshId: string): (r: seq<CotRecord>)
    ensures |r| == if HasId(records, rec.id) then |records| else |records| + 1
    ensures SavedRecord(records, rec, freshId) in r
    ensures !HasId(records, rec.id) ==> r == [SavedRecord(records, rec, freshId)] + records
    ensures HasId(records, rec.id) ==>
              (forall k :: 0 <= k < |records| && records[k].id == rec.id ==> r[k] == rec) &&
              (forall k :: 0 <= k < |records| && records[k].id != rec.id ==> r[k] == records[k])
  {
    if HasId(records, rec.id) then
      var replaced := ReplaceById(records, rec);
      assert SavedRecord(records, rec, freshId) == rec;
      assert forall k :: 0 <= k < |records| && records[k].id == rec.id ==> replaced[k] == rec;
      replaced
    else
      [SavedRecord(records, rec, freshId)] + records
  }

  /** Upsert leaves every record with another id where it was and in order. */
  lemma {:induction false} UpsertKeepsOthers(records: seq<CotRecord>, rec: CotRecord, freshId: string)
    ensures RemoveId(Upsert(records, rec, freshId), SavedId(records, rec, freshId)) ==
            RemoveId(records, SavedId(records, rec, freshId))
  {
    var id := SavedId(records, rec, freshId);
    var up := Upsert(records, rec, freshId);
    if HasId(records, rec.id) {
      ReplaceKeepsOthers(records, rec);
    } else {
      assert up == [SavedRecord(records, rec, freshId)] + records;
      FilterAppend([SavedRecord(records, rec, freshId)], records, NotId(id));
      assert Filter([SavedRecord(records, rec, freshId)], NotId(id)) == [] by {
        assert [SavedRecord(records, rec, freshId)][1..] == [];
      }
    }
  }

  /** Filtering out `rec.id` does not see the replacement. */
  lemma {:induction false} ReplaceFilter(records: seq<CotRecord>, rec: CotRecord)
    ensures Filter(ReplaceById(records, rec), NotId(rec.id)) == Filter(records, NotId(rec.id))
  {
    if records != [] {
      var rep := ReplaceById(records, rec);
      ReplaceFilter(records[1..], rec);
      assert rep[1..] == ReplaceById(records[1..], rec);
      assert rep[0].id == rec.id <==> records[0].id == rec.id;
      assert rep[0].id != rec.id ==> rep[0] == records[0];
    }
  }

  /** Replacing every record carrying `rec.id` by `rec` is invisible once that id is removed. */
  lemma ReplaceKeepsOthers(records: seq<CotRecord>, rec: CotRecord)
    ensures RemoveId(ReplaceById(records, rec), rec.id) == RemoveId(records, rec.id)
  {
    ReplaceFilter(records, rec);
  }

  /** Saving into one pair: upsert, then the stable newest-first sort. */
  function SaveInPair(records: seq<CotRecord>, rec: CotRecord, freshId: string): (r: seq<CotRecord>)
    ensures |r| == if HasId(records, rec.id) then |records| else |records| + 1
  {
    SortNewestFirst(Upsert(records, rec, freshId))
  }

  /** A record saved under a new id comes first among the records of its date:
      it starts on top, and the stable sort keeps it ahead of them. */
  lemma SaveNewFirstOnItsDate(records: seq<CotRecord>, rec: CotRecord, freshId: string)
    requires !HasId(records, rec.id)
    ensures Filter(SaveInPair(records, rec, freshId), OnDate(rec.date)) ==
            [SavedRecord(records, rec, freshId)] + Filter(records, OnDate(rec.date))
  {
    var saved := SavedRecord(records, rec, freshId);
    SortIsStable(Upsert(records, rec, freshId), rec.date);
    FilterAppend([saved], records, OnDate(rec.date));
    assert Filter([saved], OnDate(rec.date)) == [saved] by {
      assert [saved][1..] == [];
    }
  }

  /** The save as the page runs it: build the new list, then sort that array in place. */
  method SavePairRecords(records: seq<CotRecord>, rec: CotRecord, freshId: string)
    returns (r: seq<CotRecord>)
    ensures r == SaveInPair(records, rec, freshId)
  {
    var newData := Upsert(records, rec, freshId);
    var a := new CotRecord[|newData|](k requires 0 <= k < |newData| => newData[k]);
    assert a[..] == newData;
    SortByDateInPlace(a);
    r := a[..];
  }

  /** After a save the pair's records are newest first, a permutation of the
      upserted list, one longer exactly when the id was new, and hold the saved record. */
  lemma SaveSortsAndPermutes(records: seq<CotRecord>, rec: CotRecord, freshId: string)
    ensures NewestFirst(SaveInPair(records, rec, freshId))
    ensures multiset(SaveInPair(records, rec, freshId)) == multiset(Upsert(records, rec, freshId))
    ensures |SaveInPair(records, rec, freshId)| ==
            if HasId(records, rec.id) then |records| else |records| + 1
    ensures SavedRecord(records, rec, freshId) in SaveInPair(records, rec, freshId)
  {
    var up := Upsert(records, rec, freshId);
    SortIsNewestFirst(up);
    SortPermutes(up);
    assert SavedRecord(records, rec, freshId) in multiset(up);
  }

  /** Deleting the saved id after a save gives the other records, sorted. */
  lemma SaveThenDelete(records: seq<CotRecord>, rec: CotRecord, freshId: string)
    ensures RemoveId(SaveInPair(records, rec, freshId), SavedId(records, rec, freshId)) ==
            SortNewestFirst(RemoveId(records, SavedId(records, rec, freshId)))
  {
    var id := SavedId(records, rec, freshId);
    FilterSort(Upsert(records, rec, freshId), NotId(id));
    UpsertKeepsOthers(records, rec, freshId);
  }

  /** On a newest-first list, saving a record under a new id and then deleting
      that id restores the list. */
  lemma SaveNewThenDeleteRestores(records: seq<CotRecord>, rec: CotRecord, freshId: string)
    requires NewestFirst(records)
    requires !HasId(records, SavedId(records, rec, freshId))
    ensures RemoveId(SaveInPair(records, rec, freshId), SavedId(records, rec, freshId)) == records
  {
    SaveThenDelete(records, rec, freshId);
    RemoveAbsentId(records, SavedId(records, rec, freshId));
    SortOfNewestFirst(records);
  }

  /** Saving a record into every pair entry with the selected name. */
  function SaveRecord(d: AppData, selected: string, rec: CotRecord, freshId: string): (r: AppData)
    ensures |r| == |d|
    ensures forall i :: 0 <= i < |d| ==> r[i].pair == d[i].pair
    ensures forall i :: 0 <= i < |d| && d[i].pair != selected ==> r[i] == d[i]
    ensures forall i :: 0 <= i < |d| && d[i].pair == selected ==>
              r[i].data == SaveInPair(d[i].data, rec, freshId)
  {
    seq(|d|, i requires 0 <= i < |d| =>
      if d[i].pair == selected then PairData(d[i].pair, SaveInPair(d[i].data, rec, freshId)) else d[i])
  }

  /** Saving into a dataset and then dropping its first entry equals saving into
      the dataset without that entry. */
  lemma SaveRecordTail(d: AppData, selected: string, rec: CotRecord, freshId: string)
    requires d != []
    ensures SaveRecord(d[1..], selected, rec, freshId) == SaveRecord(d, selected, rec, freshId)[1..]
  {
    var saved := SaveRecord(d, selected, rec, freshId);
    var rest := SaveRecord(d[1..], selected, rec, freshId);
    forall k | 0 <= k < |rest|
      ensures rest[k] == saved[1..][k]
    {
      assert d[1..][k] == d[k + 1];
    }
  }

  /** After a save, the page shows the saved-into list of the selected pair. */
  lemma {:induction false} SaveThenLookup(d: AppData, selected: string, rec: CotRecord, freshId: string)
    requires exists i :: 0 <= i < |d| && d[i].pair == selected
    ensures SelectedRecords(SaveRecord(d, selected, rec, freshId), selected) ==
            SaveInPair(SelectedRecords(d, selected), rec, freshId)
  {
    var saved := SaveRecord(d, selected, rec, freshId);
    if d[0].pair != selected {
      var i :| 0 <= i < |d| && d[i].pair == selected;
      assert d[1..][i - 1].pair == selected;
      SaveThenLookup(d[1..], selected, rec, freshId);
      SaveRecordTail(d, selected, rec, freshId);
      assert saved[0].pair != selected;
    }
  }

  // ---------------------------------------------------------------------
  // Add pair
  // ---------------------------------------------------------------------

  /** What submitting the add-pair form does: nothing for an empty name, an
      "already exists" alert, or a new dataset with the new pair selected. */
  datatype AddPairResult = Ignored | Duplicate | Added(data: AppData, selected: string)

  /** Adding a pair as the page does it: the duplicate test compares the name as
      typed, while the stored name is upper-cased. */
  function AddPair(d: AppData, name: string): (r: AddPairResult)
    ensures r.Ignored? <==> name == ""
    ensures r.Duplicate? <==> name != "" && name in PairNames(d)
    ensures r.Added? ==> r.data == d + [PairData(ToUpper(name), [])] && r.selected == ToUpper(name)
  {
    if name == "" then Ignored
    else if exists i :: 0 <= i < |d| && d[i].pair == name then Duplicate
    else Added(d + [PairData(ToUpper(name), [])], ToUpper(name))
  }

  /** A name that differs from its upper-case form passes the duplicate test even
      when that form is already a pair: the add then stores a second entry with an
      existing name, and the upper-case form is afterwards rejected. */
  lemma AddPairCaseDuplicate(d: AppData, name: string)
    requires name !in PairNames(d) && ToUpper(name) in PairNames(d)
    ensures AddPair(d, name).Added?
    ensures !DistinctNames(AddPair(d, name).data)
    ensures AddPair(AddPair(d, name).data, ToUpper(name)).Duplicate?
  {
    var k :| 0 <= k < |PairNames(d)| && PairNames(d)[k] == ToUpper(name);
    assert name != "";
    var r := AddPair(d, name);
    assert r.data[k].pair == r.data[|d|].pair;
    assert PairNames(r.data)[|d|] == ToUpper(name);
  }

  lemma UpperEurJpy()
    ensures ToUpper("eurjpy") == "EURJPY"
  {
  }

  /** No built-in pair name is written in lower case. */
  lemma LowerEurJpyNotBuiltIn(names: seq<string>)
    requires names == ["EURUSD", "GBPUSD", "USDJPY", "USDCHF", "AUDUSD",
                       "NZDUSD", "USDCAD", "GBPJPY", "EURJPY", "EURGBP"]
    ensures "eurjpy" !in names
  {
    forall k | 0 <= k < |names| ensures names[k] != "eurjpy" {
      assert names[k][0] != "eurjpy"[0];
    }
  }

  /** On the built-in dataset, "eurjpy" is added as a second EURJPY entry. */
  lemma AddPairAdmitsCaseDuplicate()
    ensures AddPair(DataService.InitialData(), "eurjpy").Added?
    ensures !DistinctNames(AddPair(DataService.InitialData(), "eurjpy").data)
    ensures AddPair(AddPair(DataService.InitialData(), "eurjpy").data, "EURJPY").Duplicate?
  {
    var d := DataService.InitialData();
    var names := PairNames(d);
    UpperEurJpy();
    assert names[8] == "EURJPY";
    LowerEurJpyNotBuiltIn(names);
    AddPairCaseDuplicate(d, "eurjpy");
  }

  /** Adding a pair with the duplicate test on the upper-cased name, which keeps
      pair names distinct. */
  function AddPairNormalized(d: AppData, name: string): (r: AddPairResult)
    ensures r.Ignored? <==> name == ""
    ensures r.Duplicate? <==> name != "" && ToUpper(name) in PairNames(d)
    ensures r.Added? ==> r.data == d + [PairData(ToUpper(name), [])] && r.selected == ToUpper(name)
  {
    if name == "" then Ignored
    else if exists i :: 0 <= i < |d| && d[i].pair == ToUpper(name) then Duplicate
    else Added(d + [PairData(ToUpper(name), [])], ToUpper(name))
  }

  /** The normalized add keeps names distinct, and the added pair is the one selected, with no records. */
  lemma AddPairNormalizedKeepsNamesDistinct(d: AppData, name: string)
    requires DistinctNames(d)
    ensures AddPairNormalized(d, name).Added? ==> DistinctNames(AddPairNormalized(d, name).data)
    ensures AddPairNormalized(d, name).Added? ==>
              SelectedRecords(AddPairNormalized(d, name).data, AddPairNormalized(d, name).selected) == []
  {
    var r := AddPairNormalized(d, name);
    if r.Added? {
      forall i | 0 <= i < |d| ensures d[i].pair != ToUpper(name) {
        assert PairNames(d)[i] == d[i].pair;
      }
      assert r.data[|d|].pair == ToUpper(name);
    }
  }
}
