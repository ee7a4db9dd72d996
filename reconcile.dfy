/** The CIE/SEE roster reconciliation of obe.js. `matchSEEwithCIE` highlights
    rows whose USN the other sheet lacks and rows that break the serial-number
    sequence. When SEE results are loaded, `insertNamesIntoSEE` fills the SEE
    name column from the CIE sheet, `filterSEEByName` drops the rows left
    without a name, and `reorderSEE_SLNO` renumbers what remains. Tables are
    rows of cell texts; row 0 is the header row and the others its body. */
module Reconcile {
  import opened Common
  import opened Text

  /** `cells[k]?.innerText.trim()`: the trimmed text of cell `k`, if the row has one. */
  function CellText(row: seq<string>, k: nat): (r: Option<string>)
    ensures k < |row| <==> r.Some?
    ensures k < |row| ==> r.value == Trim(row[k])
  {
    if k < |row| then Some(Trim(row[k])) else None
  }

  // ---------------------------------------------------------------------------
  // matchSEEwithCIE
  // ---------------------------------------------------------------------------

  /** The USN a row is matched by: cell 1 trimmed and upper-cased, `undefined`
      (here `None`) when the row has no cell 1. */
  function UsnKey(row: seq<string>): (r: Option<string>)
    ensures r.Some? <==> |row| > 1
  {
    match CellText(row, 1)
    case Some(t) => Some(ToUpper(t))
    case None => None
  }

  /** The serial number of a row: `parseInt` with no radix of cell 0 trimmed,
      `None` for NaN. */
  function SerialOf(row: seq<string>): Option<int> {
    match CellText(row, 0)
    case Some(t) => ParseIntAuto(t)
    case None => None
  }

  /** The serial numbers of a table body, row by row. */
  function SerialsOf(rows: seq<seq<string>>): (r: seq<Option<int>>)
    ensures |r| == |rows| && forall i :: 0 <= i < |rows| ==> r[i] == SerialOf(rows[i])
  {
    seq(|rows|, i requires 0 <= i < |rows| => SerialOf(rows[i]))
  }

  /** The serial-number check of one table body, from a previous serial `prev`:
      a row is flagged when its serial is NaN or not `prev + 1`; a valid serial
      becomes the new `prev`, a NaN leaves it as it is. */
  function SerialFlags(serials: seq<Option<int>>, prev: int): (r: seq<bool>)
    ensures |r| == |serials|
  {
    if serials == [] then []
    else
      var s := serials[0];
      [s.None? || s.value != prev + 1] + SerialFlags(serials[1..], if s.None? then prev else s.value)
  }

  /** No row of the table body is flagged. */
  predicate Unflagged(serials: seq<Option<int>>, prev: int) {
    forall i :: 0 <= i < |serials| ==> !SerialFlags(serials, prev)[i]
  }

  /** The serials run `prev + 1, prev + 2, ...` with no NaN among them. */
  predicate RunsFrom(serials: seq<Option<int>>, prev: int) {
    forall i :: 0 <= i < |serials| ==> serials[i] == Some(prev + i + 1)
  }

  /** Serials that run `prev + 1, prev + 2, ...` raise no flag. */
  lemma {:induction false} ConsecutiveUnflagged(serials: seq<Option<int>>, prev: int)
    requires RunsFrom(serials, prev)
    ensures Unflagged(serials, prev)
  {
    if serials != [] {
      var rest := serials[1..];
      var next := prev + 1;
      assert serials[0] == Some(next);
      forall i | 0 <= i < |rest| ensures rest[i] == Some(next + i + 1) {
        assert rest[i] == serials[i + 1];
      }
      ConsecutiveUnflagged(rest, next);
      var flags := SerialFlags(serials, prev);
      assert flags == [false] + SerialFlags(rest, next);
      forall i | 0 <= i < |serials| ensures !flags[i] {
        if i > 0 {
          assert flags[i] == SerialFlags(rest, next)[i - 1];
        }
      }
    }
  }

  /** Serials that raise no flag run `prev + 1, prev + 2, ...`. */
  lemma {:induction false} UnflaggedConsecutive(serials: seq<Option<int>>, prev: int)
    requires Unflagged(serials, prev)
    ensures RunsFrom(serials, prev)
  {
    if serials != [] {
      var rest := serials[1..];
      var flags := SerialFlags(serials, prev);
      assert !flags[0];
      var next := prev + 1;
      assert serials[0] == Some(next);
      assert flags == [false] + SerialFlags(rest, next);
      forall i | 0 <= i < |rest| ensures !SerialFlags(rest, next)[i] {
        assert SerialFlags(rest, next)[i] == flags[i + 1];
      }
      UnflaggedConsecutive(rest, next);
      forall i | 0 <= i < |serials| ensures serials[i] == Some(prev + i + 1) {
        if i > 0 {
          assert serials[i] == rest[i - 1];
        }
      }
    }
  }

  /** No row is flagged exactly when the serials run `prev + 1, prev + 2, ...`. */
  lemma SerialFlagsClean(serials: seq<Option<int>>, prev: int)
    ensures Unflagged(serials, prev) <==> RunsFrom(serials, prev)
  {
    if Unflagged(serials, prev) {
      UnflaggedConsecutive(serials, prev);
    }
    if RunsFrom(serials, prev) {
      ConsecutiveUnflagged(serials, prev);
    }
  }

  lemma SerialFlagsHead(serials: seq<Option<int>>, prev: int)
    requires serials != []
    ensures var s := serials[0];
      SerialFlags(serials, prev)
      == [s.None? || s.value != prev + 1] + SerialFlags(serials[1..], if s.None? then prev else s.value)
  {
  }

  /** One serial-number pass of `matchSEEwithCIE` over the serials of a table body. */
  method SerialCheck(serials: seq<Option<int>>) returns (flags: seq<bool>, found: bool)
    ensures flags == SerialFlags(serials, 0)
    ensures found <==> true in flags
  {
    var prevSno := 0;
    flags := [];
    found := false;
    for i := 0 to |serials|
      invariant flags + SerialFlags(serials[i..], prevSno) == SerialFlags(serials, 0)
      invariant found <==> true in flags
    {
      var sno := serials[i];
      var bad := sno.None? || sno.value != prevSno + 1;
      var next := if sno.None? then prevSno else sno.value;
      ghost var rest := SerialFlags(serials[i + 1..], next);
      assert SerialFlags(serials[i..], prevSno) == [bad] + rest by {
        SerialFlagsHead(serials[i..], prevSno);
        assert serials[i..][0] == sno && serials[i..][1..] == serials[i + 1..];
      }
      assert flags + [bad] + rest == flags + ([bad] + rest);
      flags := flags + [bad];
      found := found || bad;
      prevSno := next;
    }
    assert serials[|serials|..] == [];
    assert flags + [] == flags;
  }

  /** The highlights and the alert of `matchSEEwithCIE`. */
  datatype MatchReport = MatchReport(
    seeMissing: seq<bool>,      // "to-delete": the SEE row's USN is not in the CIE body
    cieMissing: seq<bool>,      // "missing-in-see": the CIE row's USN is not in the SEE body
    cieSerialError: seq<bool>,  // "sno-error" on a CIE row
    seeSerialError: seq<bool>,  // "sno-error" on a SEE row
    usnMismatchSEE: bool,
    usnMismatchCIE: bool,
    snoMismatch: bool)

  /** The alert text; no alert is raised when it is empty. */
  function AlertText(r: MatchReport): (t: string)
    ensures t == "" <==> !r.usnMismatchSEE && !r.usnMismatchCIE && !r.snoMismatch
  {
    var msg := (if r.usnMismatchSEE then "USN(s) in SEE not found in CIE.\n" else "")
      + (if r.usnMismatchCIE then "USN(s) in CIE not found in SEE.\n" else "")
      + (if r.snoMismatch then "Serial number mismatch detected.\n" else "");
    if msg == "" then "" else msg + "Please correct the document(s) and re-upload."
  }

  /** The USN keys of a table body, row by row. */
  function UsnKeys(rows: seq<seq<string>>): (r: seq<Option<string>>)
    ensures |r| == |rows| && forall i :: 0 <= i < |rows| ==> r[i] == UsnKey(rows[i])
  {
    seq(|rows|, i requires 0 <= i < |rows| => UsnKey(rows[i]))
  }

  /** The set of keys of a table body, built row by row. */
  method KeySet<K(==)>(keys: seq<K>) returns (s: set<K>)
    ensures forall k :: k in s <==> k in keys
  {
    s := {};
    for i := 0 to |keys|
      invariant forall k :: k in s <==> k in keys[..i]
    {
      assert keys[..i + 1] == keys[..i] + [keys[i]];
      s := s + {keys[i]};
    }
  }

  /** Flags every key not in `others`. */
  method MissingFlags<K(==)>(keys: seq<K>, others: set<K>) returns (flags: seq<bool>, any: bool)
    ensures |flags| == |keys|
    ensures forall i :: 0 <= i < |keys| ==> (flags[i] <==> keys[i] !in others)
    ensures any <==> exists i :: 0 <= i < |keys| && flags[i]
  {
    flags := [];
    any := false;
    for i := 0 to |keys|
      invariant |flags| == i
      invariant forall k :: 0 <= k < i ==> (flags[k] <==> keys[k] !in others)
      invariant any <==> exists k :: 0 <= k < i && flags[k]
    {
      var missing := keys[i] !in others;
      flags := flags + [missing];
      any := any || missing;
    }
  }

  /** Some row of `rows` has USN key `key`. */
  predicate HasUsn(rows: seq<seq<string>>, key: Option<string>) {
    exists j :: 0 <= j < |rows| && UsnKey(rows[j]) == key
  }

  lemma UsnKeysMembers(rows: seq<seq<string>>, key: Option<string>)
    ensures key in UsnKeys(rows) <==> HasUsn(rows, key)
  {
    var keys := UsnKeys(rows);
    if key in keys {
      var j :| 0 <= j < |keys| && keys[j] == key;
      assert UsnKey(rows[j]) == key;
    }
    if HasUsn(rows, key) {
      var j :| 0 <= j < |rows| && UsnKey(rows[j]) == key;
      assert keys[j] == key;
    }
  }

  /** The USN half of `matchSEEwithCIE` for one body: collects the USN keys of
      the other body into a set, then flags every row whose key is not in it. */
  method UsnCheck(rows: seq<seq<string>>, otherRows: seq<seq<string>>) returns (flags: seq<bool>, any: bool)
    ensures |flags| == |rows|
    ensures forall i :: 0 <= i < |rows| ==> (flags[i] <==> !HasUsn(otherRows, UsnKey(rows[i])))
    ensures any <==> exists i :: 0 <= i < |rows| && flags[i]
  {
    var keys := UsnKeys(rows);
    var others := KeySet(UsnKeys(otherRows));
    flags, any := MissingFlags(keys, others);
    forall i | 0 <= i < |rows| ensures flags[i] <==> !HasUsn(otherRows, UsnKey(rows[i])) {
      UsnKeysMembers(otherRows, keys[i]);
    }
  }

  /** `matchSEEwithCIE` on the two table bodies: a row is flagged as missing
      exactly when no row of the other body has the same USN key, and each
      body gets its own serial check starting from 0. */
  method MatchSEEwithCIE(cie: seq<seq<string>>, see: seq<seq<string>>) returns (r: MatchReport)
    ensures |r.seeMissing| == |see| && |r.cieMissing| == |cie|
    ensures forall i :: 0 <= i < |see| ==> (r.seeMissing[i] <==> !HasUsn(cie, UsnKey(see[i])))
    ensures forall i :: 0 <= i < |cie| ==> (r.cieMissing[i] <==> !HasUsn(see, UsnKey(cie[i])))
    ensures r.cieSerialError == SerialFlags(SerialsOf(cie), 0)
    ensures r.seeSerialError == SerialFlags(SerialsOf(see), 0)
    ensures r.usnMismatchSEE <==> exists i :: 0 <= i < |see| && r.seeMissing[i]
    ensures r.usnMismatchCIE <==> exists i :: 0 <= i < |cie| && r.cieMissing[i]
    ensures r.snoMismatch <==>
      (exists i :: 0 <= i < |cie| && r.cieSerialError[i])
      || (exists i :: 0 <= i < |see| && r.seeSerialError[i])
  {
    var seeMissing, usnMismatchSEE := UsnCheck(see, cie);
    var cieMissing, usnMismatchCIE := UsnCheck(cie, see);
    var cieSerial, cieFound := SerialCheck(SerialsOf(cie));
    var seeSerial, seeFound := SerialCheck(SerialsOf(see));
    r := MatchReport(seeMissing, cieMissing, cieSerial, seeSerial,
                     usnMismatchSEE, usnMismatchCIE, cieFound || seeFound);
  }

  // ---------------------------------------------------------------------------
  // insertNamesIntoSEE, filterSEEByName, reorderSEE_SLNO
  // ---------------------------------------------------------------------------

  /** The lookup key of a USN cell: its trimmed text, lower-cased. */
  function NameKey(usn: string): string {
    ToLower(usn)
  }

  /** What a CIE data row contributes to the dictionary: its trimmed USN cell,
      if it has one, and its trimmed name cell, `undefined` read as "". */
  datatype NameEntry = NameEntry(usn: Option<string>, name: string)

  function EntryOf(row: seq<string>): NameEntry {
    NameEntry(CellText(row, 1), CellText(row, 2).GetOr(""))
  }

  /** The entries of the CIE data rows, that is of every row but the header. */
  function CieEntries(cie: seq<seq<string>>): (r: seq<NameEntry>)
    ensures |r| == if cie == [] then 0 else |cie| - 1
    ensures forall j :: 0 <= j < |r| ==> r[j] == EntryOf(cie[j + 1])
  {
    if cie == [] then [] else seq(|cie| - 1, j requires 0 <= j < |cie| - 1 => EntryOf(cie[j + 1]))
  }

  /** Entry `e` provides a name for `key`: its USN is not empty and lower-cases to `key`. */
  predicate ProvidesName(e: NameEntry, key: string) {
    e.usn.Some? && e.usn.value != "" && NameKey(e.usn.value) == key
  }

  /** The USN-to-name dictionary built from the first `k` entries, a later entry
      overwriting an earlier one with the same key. */
  function NameMap(entries: seq<NameEntry>, k: nat): map<string, string>
    requires k <= |entries|
  {
    if k == 0 then map[]
    else
      var m := NameMap(entries, k - 1);
      var e := entries[k - 1];
      if e.usn.Some? && e.usn.value != "" then m[NameKey(e.usn.value) := e.name] else m
  }

  /** A key is in the dictionary exactly when some entry provides it, and then it
      holds the name of the last such entry. */
  lemma {:induction false} NameMapLast(entries: seq<NameEntry>, k: nat, key: string)
    requires k <= |entries|
    ensures key in NameMap(entries, k) <==> exists j :: 0 <= j < k && ProvidesName(entries[j], key)
    ensures key in NameMap(entries, k) ==>
      exists j :: 0 <= j < k && ProvidesName(entries[j], key) && NameMap(entries, k)[key] == entries[j].name
                  && forall j' :: j < j' < k ==> !ProvidesName(entries[j'], key)
  {
    if k > 0 {
      NameMapLast(entries, k - 1, key);
      if ProvidesName(entries[k - 1], key) {
        assert NameMap(entries, k)[key] == entries[k - 1].name;
      }
    }
  }

  /** The name `insertNamesIntoSEE` writes into a SEE row: the dictionary entry
      for its lower-cased trimmed USN when there is a non-empty one, else "". */
  function NameFor(names: map<string, string>, row: seq<string>): string {
    var usn := CellText(row, 1);
    if usn.Some? && usn.value != "" && NameKey(usn.value) in names && names[NameKey(usn.value)] != ""
    then names[NameKey(usn.value)]
    else ""
  }

  /** A SEE row gets the name of the last CIE data row with the same lower-cased
      USN when that name is not empty, and "" otherwise. */
  lemma NameForIsLastMatch(cie: seq<seq<string>>, row: seq<string>)
    requires |row| > 1 && Trim(row[1]) != ""
    ensures var entries := CieEntries(cie);
      var key := NameKey(Trim(row[1]));
      var name := NameFor(NameMap(entries, |entries|), row);
      (name != "" ==> exists j :: 0 <= j < |entries| && ProvidesName(entries[j], key) && entries[j].name == name
                                  && forall j' :: j < j' < |entries| ==> !ProvidesName(entries[j'], key))
      && ((forall j :: 0 <= j < |entries| ==> !ProvidesName(entries[j], key)) ==> name == "")
  {
    var entries := CieEntries(cie);
    NameMapLast(entries, |entries|, NameKey(Trim(row[1])));
  }

  /** The SEE data rows have the name cell `insertNamesIntoSEE` writes to. */
  predicate HasNameCells(rows: seq<seq<string>>) {
    forall r :: 1 <= r < |rows| ==> |rows[r]| > 2
  }

  /** The SEE table after `insertNamesIntoSEE`: every data row's name cell
      replaced, the header row and every other cell unchanged. */
  function NamesInserted(see: seq<seq<string>>, cie: seq<seq<string>>): (r: seq<seq<string>>)
    requires HasNameCells(see)
    ensures |r| == |see| && HasNameCells(r)
  {
    var entries := CieEntries(cie);
    var names := NameMap(entries, |entries|);
    seq(|see|, i requires 0 <= i < |see| =>
      if i == 0 then see[0] else see[i][2 := NameFor(names, see[i])])
  }

  /** Whether `filterSEEByName` deletes a data row: its trimmed name is empty or
      "NOT FOUND". */
  predicate Unnamed(row: seq<string>) {
    var name := CellText(row, 2).GetOr("");
    name == "" || name == "NOT FOUND"
  }

  /** The body rows that survive `filterSEEByName`, in their order. */
  function NamedRows(body: seq<seq<string>>): (r: seq<seq<string>>)
    ensures |r| <= |body|
  {
    if body == [] then []
    else (if Unnamed(body[0]) then [] else [body[0]]) + NamedRows(body[1..])
  }

  /** A row survives exactly when it was there and has a name. */
  lemma {:induction false} NamedRowsMembers(body: seq<seq<string>>, row: seq<string>)
    ensures row in NamedRows(body) <==> row in body && !Unnamed(row)
  {
    if body != [] {
      NamedRowsMembers(body[1..], row);
      assert body == [body[0]] + body[1..];
    }
  }

  /** Filtering distributes over joined bodies, so the survivors keep their order. */
  lemma {:induction false} NamedRowsAppend(a: seq<seq<string>>, b: seq<seq<string>>)
    ensures NamedRows(a + b) == NamedRows(a) + NamedRows(b)
  {
    if a == [] {
      assert a + b == b;
    } else {
      assert (a + b)[0] == a[0];
      assert (a + b)[1..] == a[1..] + b;
      NamedRowsAppend(a[1..], b);
    }
  }

  /** Filtering twice removes nothing more. */
  lemma {:induction false} NamedRowsIdempotent(body: seq<seq<string>>)
    ensures NamedRows(NamedRows(body)) == NamedRows(body)
  {
    if body != [] {
      NamedRowsIdempotent(body[1..]);
      var head := if Unnamed(body[0]) then [] else [body[0]];
      NamedRowsAppend(head, NamedRows(body[1..]));
      if !Unnamed(body[0]) {
        assert ([body[0]] + NamedRows(body[1..]))[1..] == NamedRows(body[1..]);
      }
    }
  }

  /** Filtering the rows from `i` on decides row `i`, then filters the rest. */
  lemma NamedRowsFrom(body: seq<seq<string>>, i: nat)
    requires i < |body|
    ensures NamedRows(body[i..]) == (if Unnamed(body[i]) then [] else [body[i]]) + NamedRows(body[i + 1..])
  {
    assert body[i..][1..] == body[i + 1..];
  }

  /** One step of the backward walk of `filterSEEByName`: deciding row `i`
      extends the filtered tail by one row. */
  lemma FilterStep(before: seq<seq<string>>, rows: seq<seq<string>>, i: nat)
    requires 1 <= i < |before| && rows == before[..i + 1] + NamedRows(before[i + 1..])
    ensures i < |rows| && rows[i] == before[i]
    ensures Unnamed(before[i]) ==> rows[..i] + rows[i + 1..] == before[..i] + NamedRows(before[i..])
    ensures !Unnamed(before[i]) ==> rows == before[..i] + NamedRows(before[i..])
  {
    NamedRowsFrom(before, i);
    assert rows[..i] == before[..i] && rows[i] == before[i];
    assert rows[i + 1..] == NamedRows(before[i + 1..]);
    assert before[..i + 1] == before[..i] + [before[i]];
  }

  /** The table after `filterSEEByName`: the header row and the named body rows. */
  function Filtered(rows: seq<seq<string>>): (r: seq<seq<string>>)
    ensures rows == [] ==> r == []
    ensures rows != [] ==> r == [rows[0]] + NamedRows(rows[1..])
  {
    if rows == [] then [] else [rows[0]] + NamedRows(rows[1..])
  }

  /** The data rows have the serial cell `reorderSEE_SLNO` writes to. */
  predicate HasSerialCells(rows: seq<seq<string>>) {
    forall r :: 1 <= r < |rows| ==> |rows[r]| > 0
  }

  /** The table after `reorderSEE_SLNO`: data row r carries serial r. */
  function Renumbered(rows: seq<seq<string>>): (r: seq<seq<string>>)
    requires HasSerialCells(rows)
    ensures |r| == |rows| && HasSerialCells(r)
  {
    seq(|rows|, i requires 0 <= i < |rows| => if i == 0 then rows[0] else rows[i][0 := NatText(i)])
  }

  /** A row whose serial cell holds the text of `n` has serial `n`. */
  lemma SerialOfNatText(row: seq<string>, n: nat)
    requires |row| > 0 && row[0] == NatText(n)
    ensures SerialOf(row) == Some(n)
  {
    TrimOfNatText(n);
    ParseIntAutoNatText(n);
  }

  /** Data row `i + 1` of a renumbered table reads back serial `i + 1`. */
  lemma RenumberedSerial(rows: seq<seq<string>>, body: seq<seq<string>>, i: nat)
    requires HasSerialCells(rows) && rows != [] && body == Renumbered(rows)[1..] && i < |body|
    ensures SerialsOf(body)[i] == Some(i + 1)
  {
    assert body[i] == Renumbered(rows)[i + 1];
    assert body[i][0] == NatText(i + 1);
    SerialOfNatText(body[i], i + 1);
  }

  /** The body of a renumbered table reads back serials 1, 2, ... */
  lemma RenumberedSerials(rows: seq<seq<string>>, body: seq<seq<string>>)
    requires HasSerialCells(rows) && rows != [] && body == Renumbered(rows)[1..]
    ensures forall i :: 0 <= i < |body| ==> SerialsOf(body)[i] == Some(0 + i + 1)
  {
    forall i | 0 <= i < |body| ensures SerialsOf(body)[i] == Some(0 + i + 1) {
      RenumberedSerial(rows, body, i);
    }
  }

  /** A body whose serials run 1, 2, ... passes the serial check. */
  lemma CountingBodyPasses(body: seq<seq<string>>)
    requires forall i :: 0 <= i < |body| ==> SerialsOf(body)[i] == Some(0 + i + 1)
    ensures forall i :: 0 <= i < |body| ==> !SerialFlags(SerialsOf(body), 0)[i]
  {
    SerialFlagsClean(SerialsOf(body), 0);
  }

  /** After renumbering, the serial check of `matchSEEwithCIE` flags no row of
      the body. */
  lemma RenumberedPassesSerialCheck(rows: seq<seq<string>>, body: seq<seq<string>>)
    requires HasSerialCells(rows) && rows != [] && body == Renumbered(rows)[1..]
    ensures forall i :: 0 <= i < |body| ==> !SerialFlags(SerialsOf(body), 0)[i]
  {
    RenumberedSerials(rows, body);
    CountingBodyPasses(body);
  }

  /** The dictionary-building loop of `insertNamesIntoSEE`. */
  method BuildNameMap(entries: seq<NameEntry>) returns (usnToName: map<string, string>)
    ensures usnToName == NameMap(entries, |entries|)
  {
    usnToName := map[];
    for i := 0 to |entries|
      invariant usnToName == NameMap(entries, i)
    {
      var e := entries[i];
      if e.usn.Some? && e.usn.value != "" {
        usnToName := usnToName[NameKey(e.usn.value) := e.name];
      }
    }
  }

  /** A rendered table, whose rows the reconciliation steps edit in place. */
  class HtmlTable {
    var rows: seq<seq<string>>

    constructor (initial: seq<seq<string>>)
      ensures rows == initial
    {
      rows := initial;
    }

    /** `insertNamesIntoSEE`: builds the USN-to-name dictionary from the CIE
        table's data rows, then overwrites the name cell of every data row of
        this (SEE) table. */
    method InsertNames(cie: HtmlTable)
      requires HasNameCells(rows)
      modifies this
      ensures rows == NamesInserted(old(rows), old(cie.rows))
    {
      var usnToName := BuildNameMap(CieEntries(cie.rows));
      ghost var before := rows;
      var i := 1;
      while i < |rows|
        invariant 1 <= i && |rows| == |before| && (|rows| > 0 ==> rows[0] == before[0])
        invariant forall k :: 1 <= k < i && k < |rows| ==> rows[k] == before[k][2 := NameFor(usnToName, before[k])]
        invariant forall k :: i <= k < |rows| ==> rows[k] == before[k]
      {
        rows := rows[i := rows[i][2 := NameFor(usnToName, rows[i])]];
        i := i + 1;
      }
    }

    /** `filterSEEByName`: walks the data rows from the last to the first and
        deletes every row whose trimmed name is empty or "NOT FOUND". */
    method FilterByName()
      requires HasNameCells(rows)
      modifies this
      ensures rows == Filtered(old(rows))
    {
      ghost var before := rows;
      var i := |rows| - 1;
      while i >= 1
        invariant 0 <= i + 1 <= |before| && (before != [] ==> 0 <= i)
        invariant rows == before[..i + 1] + NamedRows(before[i + 1..])
      {
        FilterStep(before, rows, i);
        if Unnamed(rows[i]) {
          rows := rows[..i] + rows[i + 1..];
        }
        i := i - 1;
      }
      if before == [] {
        assert rows == NamedRows([]) == [];
      } else {
        assert i == 0 && before[..1] == [before[0]];
      }
    }

    /** `reorderSEE_SLNO`: writes 1, 2, ... into the serial cell of the data rows. */
    method ReorderSlno()
      requires HasSerialCells(rows)
      modifies this
      ensures rows == Renumbered(old(rows))
    {
      ghost var before := rows;
      var slno := 1;
      var r := 1;
      while r < |rows|
        invariant 1 <= r && slno == r
        invariant |rows| == |before| && (|rows| > 0 ==> rows[0] == before[0])
        invariant forall k :: 1 <= k < r && k < |rows| ==> rows[k] == before[k][0 := NatText(k)]
        invariant forall k :: r <= k < |rows| ==> rows[k] == before[k]
      {
        rows := rows[r := rows[r][0 := NatText(slno)]];
        slno := slno + 1;
        r := r + 1;
      }
    }
  }
}
