/** The two roster import scripts. Each deletes every officer and then
    inserts, in sheet order, the rows whose 'First Name' and 'Last Name'
    cells are non-empty, counting them.
    - import-to-cloud.js runs against PostgreSQL. There the DELETE fails
      when any feedback row still references an officer (the foreign key),
      and a qualifying row without a 'Job Title' violates `NOT NULL`.
      Either error ends the run in the catch block, and no transaction
      undoes the rows already inserted.
    - import_excel.js runs against SQLite, which does not enforce foreign
      keys unless asked to, so its DELETE always succeeds. A qualifying row
      without a title is refused by `NOT NULL`; its statement has no
      callback, so the error is emitted with no listener and ends the
      process. Rows inserted before it stay, no later row is inserted, and
      the count is never printed. */
module Roster {
  import opened Wrappers
  import opened Collections
  import opened Schema

  /** One object of `sheet_to_json`; a cell the row lacks is `None`. */
  datatype SheetRow = SheetRow(firstName: Option<string>, lastName: Option<string>, jobTitle: Option<string>)

  /** JavaScript truthiness of a text cell: present and not ''. */
  predicate Truthy(cell: Option<string>) {
    cell.Some? && |cell.value| > 0
  }

  /** `if (firstName && lastName)`. */
  predicate Qualifies(row: SheetRow) {
    Truthy(row.firstName) && Truthy(row.lastName)
  }

  /** The row can satisfy `job_title TEXT NOT NULL`. */
  predicate HasTitle(row: SheetRow) {
    row.jobTitle.Some?
  }

  /** The officer an inserted row becomes, with the id its sequence issued. */
  function ToOfficer(row: SheetRow, id: int): Officer {
    Officer(id, row.firstName.GetOr(""), row.lastName.GetOr(""), row.jobTitle.GetOr(""))
  }

  /** The officers that rows inserted one after another become, numbered
      from `next`: the reference the import loops are compared with. */
  function NewOfficers(rows: seq<SheetRow>, next: int): seq<Officer> {
    seq(|rows|, i requires 0 <= i < |rows| => ToOfficer(rows[i], next + i))
  }

  /** `INSERT INTO officers (first_name, last_name, job_title) VALUES (...)`. */
  function AddOfficer(s: Store, row: SheetRow): (t: Store)
    ensures t.feedback == s.feedback && t.nextFeedbackId == s.nextFeedbackId
    ensures t.officers == s.officers + NewOfficers([row], s.nextOfficerId)
    ensures t.nextOfficerId == s.nextOfficerId + 1
  {
    s.(officers := s.officers + [ToOfficer(row, s.nextOfficerId)], nextOfficerId := s.nextOfficerId + 1)
  }

  /** `DELETE FROM officers`: every officer goes; the sequence does not restart. */
  function ClearOfficers(s: Store): Store {
    s.(officers := [])
  }

  lemma NewOfficersCons(row: SheetRow, rows: seq<SheetRow>, next: int)
    ensures NewOfficers([row] + rows, next) == [ToOfficer(row, next)] + NewOfficers(rows, next + 1)
  {
  }

  /** Every inserted officer has an id the sequence issued during the run. */
  lemma NewOfficersIds(rows: seq<SheetRow>, next: int)
    ensures forall i :: 0 <= i < |NewOfficers(rows, next)| ==> NewOfficers(rows, next)[i].id == next + i
    ensures DistinctIds(NewOfficers(rows, next))
  {
  }

  // ---------------------------------------------------------------------------
  // import-to-cloud.js

  /** How a run of `setupAndImport` ends: through the success message with
      `importedCount`, or in the catch block. */
  datatype ImportResult = Imported(store: Store, importedCount: nat) | Aborted(store: Store)

  /** The foreign key of `feedback.officer_id` blocks `DELETE FROM officers`
      when some feedback row references an existing officer. */
  predicate Blocked(s: Store) {
    exists k :: 0 <= k < |s.feedback| && s.feedback[k].officerId in OfficerIds(s.officers)
  }

  /** The length of the longest prefix of `q` whose rows all have a title. */
  function TitledPrefix(q: seq<SheetRow>): (n: nat)
    ensures n <= |q|
    ensures forall i :: 0 <= i < n ==> HasTitle(q[i])
    ensures n < |q| ==> !HasTitle(q[n])
  {
    if |q| == 0 || !HasTitle(q[0]) then 0 else 1 + TitledPrefix(q[1..])
  }

  /** The `for (const officer of officers)` loop. A qualifying row without
      a title fails its INSERT after drawing an id from the sequence. */
  function ImportLoop(s: Store, rows: seq<SheetRow>, count: nat): (r: ImportResult)
    ensures r.store.feedback == s.feedback && r.store.nextFeedbackId == s.nextFeedbackId
    ensures r.store.nextOfficerId >= s.nextOfficerId && |r.store.officers| >= |s.officers|
    ensures r.Imported? ==> r.importedCount >= count
    decreases |rows|
  {
    if |rows| == 0 then Imported(s, count)
    else if !Qualifies(rows[0]) then ImportLoop(s, rows[1..], count)
    else if !HasTitle(rows[0]) then Aborted(s.(nextOfficerId := s.nextOfficerId + 1))
    else ImportLoop(AddOfficer(s, rows[0]), rows[1..], count + 1)
  }

  /** `setupAndImport` from the DELETE on: the sheet's rows arrive as `sheet`. */
  function SetupAndImport(s: Store, sheet: seq<SheetRow>): (r: ImportResult)
    ensures r.store.feedback == s.feedback && r.store.nextFeedbackId == s.nextFeedbackId
  {
    if Blocked(s) then Aborted(s) else ImportLoop(ClearOfficers(s), sheet, 0)
  }

  /** Peels a titled first row off the inserted prefix. */
  lemma TitledPrefixCons(row: SheetRow, q': seq<SheetRow>, next: int)
    requires HasTitle(row)
    ensures TitledPrefix([row] + q') == 1 + TitledPrefix(q')
    ensures NewOfficers(([row] + q')[..TitledPrefix([row] + q')], next)
         == [ToOfficer(row, next)] + NewOfficers(q'[..TitledPrefix(q')], next + 1)
  {
    var q := [row] + q';
    assert q[0] == row && q[1..] == q';
    var n' := TitledPrefix(q');
    assert q[..1 + n'] == [row] + q'[..n'];
    NewOfficersCons(row, q'[..n'], next);
  }

  /** Inserting a titled row and then the titled prefix of the rest is
      inserting the titled prefix of both. */
  lemma TitledStep(a: seq<Officer>, row: SheetRow, q': seq<SheetRow>, next: int)
    requires HasTitle(row)
    ensures (a + NewOfficers([row], next)) + NewOfficers(q'[..TitledPrefix(q')], next + 1)
         == a + NewOfficers(([row] + q')[..TitledPrefix([row] + q')], next)
  {
    TitledPrefixCons(row, q', next);
    assert NewOfficers([row], next) == [ToOfficer(row, next)];
  }

  /** An untitled first row leaves the inserted prefix empty. */
  lemma UntitledPrefixCons(row: SheetRow, q': seq<SheetRow>, next: int)
    requires !HasTitle(row)
    ensures TitledPrefix([row] + q') == 0
    ensures NewOfficers(([row] + q')[..0], next) == []
  {
    var q := [row] + q';
    assert q[0] == row;
  }

  /** What `ImportLoop` promises, as one predicate the proof steps pass on. */
  predicate ImportLoopSpec(s: Store, rows: seq<SheetRow>, count: nat) {
    var r := ImportLoop(s, rows, count);
    var q := Filter(rows, Qualifies);
    var n := TitledPrefix(q);
    && r.store.officers == s.officers + NewOfficers(q[..n], s.nextOfficerId)
    && (r.Imported? <==> n == |q|)
    && (r.Imported? ==> r.importedCount == count + |q| && r.store.nextOfficerId == s.nextOfficerId + n)
    && (r.Aborted? ==> r.store.nextOfficerId == s.nextOfficerId + n + 1)
  }

  /** A row that does not qualify is passed over. */
  lemma ImportLoopSkip(s: Store, row: SheetRow, rest: seq<SheetRow>, count: nat)
    requires !Qualifies(row)
    requires ImportLoopSpec(s, rest, count)
    ensures ImportLoopSpec(s, [row] + rest, count)
  {
    var rows := [row] + rest;
    assert rows[0] == row && rows[1..] == rest;
    FilterCons(row, rest, Qualifies);
    assert Filter(rows, Qualifies) == Filter(rest, Qualifies);
    assert ImportLoop(s, rows, count) == ImportLoop(s, rest, count);
  }

  /** A qualifying row without a title ends the loop. */
  lemma ImportLoopUntitled(s: Store, row: SheetRow, rest: seq<SheetRow>, count: nat)
    requires Qualifies(row) && !HasTitle(row)
    ensures ImportLoopSpec(s, [row] + rest, count)
  {
    var rows := [row] + rest;
    assert rows[0] == row && rows[1..] == rest;
    FilterCons(row, rest, Qualifies);
    UntitledPrefixCons(row, Filter(rest, Qualifies), s.nextOfficerId);
    assert s.officers + [] == s.officers;
  }

  /** A qualifying titled row is inserted and counted. */
  lemma ImportLoopTitled(s: Store, row: SheetRow, rest: seq<SheetRow>, count: nat)
    requires Qualifies(row) && HasTitle(row)
    requires ImportLoopSpec(AddOfficer(s, row), rest, count + 1)
    ensures ImportLoopSpec(s, [row] + rest, count)
  {
    var rows := [row] + rest;
    assert rows[0] == row && rows[1..] == rest;
    FilterCons(row, rest, Qualifies);
    assert ImportLoop(s, rows, count) == ImportLoop(AddOfficer(s, row), rest, count + 1);
    TitledPrefixCons(row, Filter(rest, Qualifies), s.nextOfficerId);
    TitledStep(s.officers, row, Filter(rest, Qualifies), s.nextOfficerId);
  }

  lemma {:induction false} ImportLoopSpecHolds(s: Store, rows: seq<SheetRow>, count: nat)
    ensures ImportLoopSpec(s, rows, count)
    decreases |rows|
  {
    if |rows| == 0 {
      assert Filter(rows, Qualifies) == [];
      assert s.officers + [] == s.officers;
    } else {
      var row := rows[0];
      var rest := rows[1..];
      assert rows == [row] + rest;
      if !Qualifies(row) {
        ImportLoopSpecHolds(s, rest, count);
        ImportLoopSkip(s, row, rest, count);
      } else if !HasTitle(row) {
        ImportLoopUntitled(s, row, rest, count);
      } else {
        ImportLoopSpecHolds(AddOfficer(s, row), rest, count + 1);
        ImportLoopTitled(s, row, rest, count);
      }
    }
  }

  /** The loop inserts the qualifying rows in order up to the first one
      without a title; it ends normally exactly when there is none, having
      counted every qualifying row. */
  lemma ImportLoopMeaning(s: Store, rows: seq<SheetRow>, count: nat)
    ensures var r := ImportLoop(s, rows, count);
            var q := Filter(rows, Qualifies);
            var n := TitledPrefix(q);
            && r.store.officers == s.officers + NewOfficers(q[..n], s.nextOfficerId)
            && (r.Imported? <==> n == |q|)
            && (r.Imported? ==> r.importedCount == count + |q| && r.store.nextOfficerId == s.nextOfficerId + n)
            && (r.Aborted? ==> r.store.nextOfficerId == s.nextOfficerId + n + 1)
  {
    ImportLoopSpecHolds(s, rows, count);
  }

  /** Once the DELETE goes through, the officers table holds only rows of
      this sheet: the qualifying ones, in sheet order, up to the first
      without a title. A run ends normally iff every qualifying row has a
      title, and then `importedCount` is the number of qualifying rows. */
  lemma SetupAndImportMeaning(s: Store, sheet: seq<SheetRow>)
    ensures Blocked(s) ==> SetupAndImport(s, sheet) == Aborted(s)
    ensures var r := SetupAndImport(s, sheet);
            var q := Filter(sheet, Qualifies);
            && r.store.feedback == s.feedback
            && (!Blocked(s) ==>
                  && r.store.officers == NewOfficers(q[..TitledPrefix(q)], s.nextOfficerId)
                  && (r.Imported? <==> forall i :: 0 <= i < |q| ==> HasTitle(q[i]))
                  && (r.Imported? ==> r.importedCount == |q| <= |sheet|))
  {
    if !Blocked(s) {
      ImportLoopMeaning(ClearOfficers(s), sheet, 0);
      assert [] + NewOfficers(Filter(sheet, Qualifies)[..TitledPrefix(Filter(sheet, Qualifies))], s.nextOfficerId)
          == NewOfficers(Filter(sheet, Qualifies)[..TitledPrefix(Filter(sheet, Qualifies))], s.nextOfficerId);
    }
  }

  /** In a valid store the DELETE is blocked exactly when there is any
      feedback at all, since every feedback row references an officer. */
  lemma BlockedIffFeedback(s: Store)
    requires Valid(s)
    ensures Blocked(s) <==> |s.feedback| > 0
  {
    if |s.feedback| > 0 {
      assert s.feedback[0].officerId in OfficerIds(s.officers);
    }
  }

  /** A store whose officers are freshly numbered from `next` and which has
      no feedback is valid. */
  lemma FreshRosterValid(t: Store, rows: seq<SheetRow>, next: int)
    requires 1 <= next && next + |rows| <= t.nextOfficerId && 1 <= t.nextFeedbackId
    requires t.officers == NewOfficers(rows, next)
    requires t.feedback == []
    ensures Valid(t)
  {
    NewOfficersIds(rows, next);
  }

  /** The cloud import keeps a valid store valid, whether it ends normally,
      is blocked, or stops at a row without a title. */
  lemma SetupAndImportValid(s: Store, sheet: seq<SheetRow>)
    requires Valid(s)
    ensures Valid(SetupAndImport(s, sheet).store)
  {
    if !Blocked(s) {
      BlockedIffFeedback(s);
      SetupAndImportMeaning(s, sheet);
      ImportLoopMeaning(ClearOfficers(s), sheet, 0);
      var q := Filter(sheet, Qualifies);
      var n := TitledPrefix(q);
      var r := SetupAndImport(s, sheet);
      assert r == ImportLoop(ClearOfficers(s), sheet, 0);
      assert |q[..n]| == n;
      assert s.nextOfficerId + n <= r.store.nextOfficerId;
      assert r.store.feedback == [];
      FreshRosterValid(r.store, q[..n], s.nextOfficerId);
    }
  }

  /** After a run that got past the DELETE, no officer of the old roster is
      left: every officer's id was issued during the run. */
  lemma SetupAndImportReplaces(s: Store, sheet: seq<SheetRow>)
    requires Valid(s) && !Blocked(s)
    ensures forall i :: 0 <= i < |s.officers| ==> s.officers[i].id !in OfficerIds(SetupAndImport(s, sheet).store.officers)
  {
    SetupAndImportMeaning(s, sheet);
    var q := Filter(sheet, Qualifies);
    NewOfficersIds(q[..TitledPrefix(q)], s.nextOfficerId);
  }

  // ---------------------------------------------------------------------------
  // import_excel.js

  /** How `importExcelData` ends: with the finalize callback printing
      `importedCount`, or with the process ended by a refused INSERT. */
  datatype ExcelRun = Completed(store: Store, importedCount: nat) | Crashed(store: Store)

  /** The `data.forEach` loop and the statements it queues, run in
      serialized order. A refused INSERT draws no AUTOINCREMENT id. */
  function ExcelLoop(s: Store, rows: seq<SheetRow>, count: nat): (r: ExcelRun)
    ensures r.store.feedback == s.feedback && r.store.nextFeedbackId == s.nextFeedbackId
    ensures r.store.nextOfficerId >= s.nextOfficerId && |r.store.officers| >= |s.officers|
    ensures r.Completed? ==> r.importedCount >= count
    decreases |rows|
  {
    if |rows| == 0 then Completed(s, count)
    else if !Qualifies(rows[0]) then ExcelLoop(s, rows[1..], count)
    else if !HasTitle(rows[0]) then Crashed(s)
    else ExcelLoop(AddOfficer(s, rows[0]), rows[1..], count + 1)
  }

  /** `importExcelData`: the DELETE, then the loop, in serialized order. */
  function ImportExcelData(s: Store, data: seq<SheetRow>): (r: ExcelRun)
    ensures r.store.feedback == s.feedback && r.store.nextFeedbackId == s.nextFeedbackId
  {
    ExcelLoop(ClearOfficers(s), data, 0)
  }

  /** The two loops differ only where a row lacks its title: the SQLite
      loop stops without drawing an id, the PostgreSQL loop draws one. */
  lemma {:induction false} ExcelMirrorsImport(s: Store, rows: seq<SheetRow>, count: nat)
    ensures var e := ExcelLoop(s, rows, count);
            var i := ImportLoop(s, rows, count);
            && (e.Completed? <==> i.Imported?)
            && (e.Completed? ==> e.store == i.store && e.importedCount == i.importedCount)
            && (e.Crashed? ==> e.store.(nextOfficerId := e.store.nextOfficerId + 1) == i.store)
    decreases |rows|
  {
    if |rows| > 0 {
      if !Qualifies(rows[0]) {
        ExcelMirrorsImport(s, rows[1..], count);
      } else if HasTitle(rows[0]) {
        ExcelMirrorsImport(AddOfficer(s, rows[0]), rows[1..], count + 1);
      }
    }
  }

  /** The loop stores the qualifying rows in order up to the first one
      without a title, where the process ends; it completes exactly when
      there is none, having counted every qualifying row. */
  lemma ExcelLoopMeaning(s: Store, rows: seq<SheetRow>, count: nat)
    ensures var r := ExcelLoop(s, rows, count);
            var q := Filter(rows, Qualifies);
            var n := TitledPrefix(q);
            && r.store.officers == s.officers + NewOfficers(q[..n], s.nextOfficerId)
            && r.store.nextOfficerId == s.nextOfficerId + n
            && (r.Completed? <==> n == |q|)
            && (r.Completed? ==> r.importedCount == count + |q|)
  {
    ExcelMirrorsImport(s, rows, count);
    ImportLoopMeaning(s, rows, count);
  }

  /** After the import the officers table holds only rows of this sheet:
      the qualifying ones, in sheet order, up to the first without a title.
      The run completes iff every qualifying row has a title, and then
      `importedCount` is the number of qualifying rows, at most
      `data.length`. */
  lemma ImportExcelDataMeaning(s: Store, data: seq<SheetRow>)
    ensures var r := ImportExcelData(s, data);
            var q := Filter(data, Qualifies);
            && r.store.officers == NewOfficers(q[..TitledPrefix(q)], s.nextOfficerId)
            && r.store.nextOfficerId == s.nextOfficerId + TitledPrefix(q)
            && (r.Completed? <==> forall i :: 0 <= i < |q| ==> HasTitle(q[i]))
            && (r.Completed? ==> r.importedCount == |q| <= |data|)
  {
    ExcelLoopMeaning(ClearOfficers(s), data, 0);
    var q := Filter(data, Qualifies);
    var stored := NewOfficers(q[..TitledPrefix(q)], s.nextOfficerId);
    assert [] + stored == stored;
  }

  /** Without foreign-key enforcement the DELETE orphans feedback: in a
      store that was valid, no feedback row references an officer after the
      import, however it ends. */
  lemma ImportExcelOrphans(s: Store, data: seq<SheetRow>)
    requires Valid(s)
    ensures var t := ImportExcelData(s, data).store;
            forall k :: 0 <= k < |t.feedback| ==> t.feedback[k].officerId !in OfficerIds(t.officers)
  {
    ImportExcelDataMeaning(s, data);
    var t := ImportExcelData(s, data).store;
    var q := Filter(data, Qualifies);
    NewOfficersIds(q[..TitledPrefix(q)], s.nextOfficerId);
    forall k | 0 <= k < |t.feedback|
      ensures t.feedback[k].officerId !in OfficerIds(t.officers)
    {
      var x := t.feedback[k].officerId;
      assert x in OfficerIds(s.officers);
      var o :| o in s.officers && o.id == x;
      assert x < s.nextOfficerId;
    }
  }

  /** So the Excel import keeps a valid store valid exactly when the store
      has no feedback. */
  lemma ImportExcelValid(s: Store, data: seq<SheetRow>)
    requires Valid(s)
    ensures Valid(ImportExcelData(s, data).store) <==> |s.feedback| == 0
  {
    ImportExcelDataMeaning(s, data);
    var t := ImportExcelData(s, data).store;
    var q := Filter(data, Qualifies);
    var stored := q[..TitledPrefix(q)];
    if |s.feedback| == 0 {
      assert |stored| == TitledPrefix(q);
      FreshRosterValid(t, stored, s.nextOfficerId);
    } else {
      ImportExcelOrphans(s, data);
      assert t.feedback[0].officerId !in OfficerIds(t.officers);
      assert !ReferencesResolve(t.officers, t.feedback);
    }
  }

  /** A sheet whose first qualifying row has no title: the run ends there,
      so a later complete row is not inserted and no count is reported. */
  lemma ExcelStopsAtMissingTitle()
    ensures var r := ImportExcelData(EmptyStore, [SheetRow(Some("A"), Some("B"), None),
                                                SheetRow(Some("C"), Some("D"), Some("Sgt"))]);
            r.Crashed? && r.store.officers == []
  {
  }
}
