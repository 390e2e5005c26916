/**
 * The backend's in-memory note table and the commands over it (`save_note`,
 * `update_note`, `load_note`, `list_notes`, `delete_note`), the ordering applied
 * when notes are loaded from disk, and the clipboard poller's emit rule.
 * The disk, the clock and the clipboard are parameters.
 */
module NoteStore {
  import opened Results
  import opened Notes

  /** The decimal digit for `d`. */
  function DigitChar(d: nat): char
    requires d < 10
  {
    ('0' as int + d) as char
  }

  predicate IsDigits(s: string)
  {
    forall i | 0 <= i < |s| :: '0' <= s[i] <= '9'
  }

  /** Decimal notation of a natural number, without leading zeros. */
  function NatToDecimal(n: nat): (r: string)
    ensures r != [] && IsDigits(r)
    ensures |r| > 1 ==> r[0] != '0'
    decreases n
  {
    if n < 10 then [DigitChar(n)] else NatToDecimal(n / 10) + [DigitChar(n % 10)]
  }

  /** The number a string of digits denotes. */
  function DecimalValue(s: string): nat
    requires IsDigits(s)
  {
    if s == [] then 0 else DecimalValue(s[..|s| - 1]) * 10 + (s[|s| - 1] as int - '0' as int)
  }

  lemma {:induction false} DecimalRoundTrip(n: nat)
    ensures DecimalValue(NatToDecimal(n)) == n
    decreases n
  {
    if n >= 10 {
      var s := NatToDecimal(n);
      assert s[..|s| - 1] == NatToDecimal(n / 10);
      DecimalRoundTrip(n / 10);
    }
  }

  /** Rust's `Display` for a signed integer. */
  function IntToDecimal(n: int): string
  {
    if n < 0 then "-" + NatToDecimal(-n) else NatToDecimal(n)
  }

  /** Different numbers are written differently. */
  lemma IntToDecimalInjective(a: int, b: int)
    requires IntToDecimal(a) == IntToDecimal(b)
    ensures a == b
  {
    hide NatToDecimal, DecimalValue;
    SignShown(a);
    SignShown(b);
    if a < 0 {
      assert NatToDecimal(-a) == IntToDecimal(a)[1..] == NatToDecimal(-b);
      DecimalRoundTrip(-a);
      DecimalRoundTrip(-b);
    } else {
      DecimalRoundTrip(a);
      DecimalRoundTrip(b);
    }
  }

  /** The text starts with a minus sign exactly for a negative number. */
  lemma SignShown(n: int)
    ensures IntToDecimal(n) != [] && (IntToDecimal(n)[0] == '-' <==> n < 0)
  {
    if n >= 0 {
      var d := NatToDecimal(n);
      assert '0' <= d[0] <= '9';
    }
  }

  /** `format!("note_{}", now.timestamp_millis())` */
  function NoteIdAt(now: Timestamp): string
  {
    "note_" + IntToDecimal(now)
  }

  /** Notes saved in different milliseconds get different ids. */
  lemma DistinctMillisDistinctIds(a: Timestamp, b: Timestamp)
    requires a != b
    ensures NoteIdAt(a) != NoteIdAt(b)
  {
    if NoteIdAt(a) == NoteIdAt(b) {
      assert IntToDecimal(a) == NoteIdAt(a)[5..] == NoteIdAt(b)[5..] == IntToDecimal(b);
      IntToDecimalInjective(a, b);
    }
  }

  /** `find(|n| n.id == id)`: the position of the first note with that id. */
  function FirstIndex(notes: seq<Note>, id: string): (r: Option<nat>)
    ensures r.None? <==> forall i | 0 <= i < |notes| :: notes[i].id != id
    ensures r.Some? ==> r.value < |notes| && notes[r.value].id == id
    ensures r.Some? ==> forall j | 0 <= j < r.value :: notes[j].id != id
  {
    if notes == [] then None
    else if notes[0].id == id then Some(0)
    else match FirstIndex(notes[1..], id)
      case None => None
      case Some(i) => Some(i + 1)
  }

  /** The note after `update_note` wrote the new fields and the new time. */
  function Updated(n: Note, title: string, content: string, links: seq<string>, now: Timestamp): (r: Note)
    ensures r.id == n.id && r.createdAt == n.createdAt
    ensures r.title == title && r.content == content && r.links == links && r.updatedAt == now
  {
    n.(title := title, content := content, links := links, updatedAt := now)
  }

  /** A note appended behind the others is found by its id only when no earlier note
      has it; otherwise lookups keep finding the earlier one. */
  lemma {:induction false} FirstIndexAppend(notes: seq<Note>, n: Note, id: string)
    ensures FirstIndex(notes, id).Some? ==> FirstIndex(notes + [n], id) == FirstIndex(notes, id)
    ensures FirstIndex(notes, id).None? && n.id == id ==> FirstIndex(notes + [n], id) == Some(|notes|)
    ensures FirstIndex(notes, id).None? && n.id != id ==> FirstIndex(notes + [n], id).None?
  {
    var all := notes + [n];
    assert forall i | 0 <= i < |notes| :: all[i] == notes[i];
    assert all[|notes|] == n;
  }

  /** Updating a note in place keeps every id where it was, so the note found by an id
      is still found at the same position. */
  lemma UpdateKeepsLookup(notes: seq<Note>, i: nat, title: string, content: string,
                          links: seq<string>, now: Timestamp, id: string)
    requires i < |notes|
    ensures FirstIndex(notes[i := Updated(notes[i], title, content, links, now)], id) == FirstIndex(notes, id)
  {
    var after := notes[i := Updated(notes[i], title, content, links, now)];
    assert forall j | 0 <= j < |notes| :: after[j].id == notes[j].id;
    var a := FirstIndex(after, id);
    var b := FirstIndex(notes, id);
    if a.Some? && b.Some? {
      assert !(a.value < b.value) && !(b.value < a.value);
    }
  }

  /** Removing the first note with an id leaves that id findable only if a later note
      shares it. */
  lemma DeleteHidesUnique(notes: seq<Note>, id: string)
    requires FirstIndex(notes, id).Some?
    requires forall i, j | 0 <= i < j < |notes| :: notes[i].id != notes[j].id
    ensures FirstIndex(notes[..FirstIndex(notes, id).value] + notes[FirstIndex(notes, id).value + 1..], id).None?
  {
    var k := FirstIndex(notes, id).value;
    var rest := notes[..k] + notes[k + 1..];
    forall j | 0 <= j < |rest|
      ensures rest[j].id != id
    {
      if j < k {
        assert rest[j] == notes[j];
      } else {
        assert rest[j] == notes[j + 1];
      }
    }
  }

  /** `updated_at` descending. */
  predicate SortedByUpdatedDesc(notes: seq<Note>)
  {
    forall i, j | 0 <= i < j < |notes| :: notes[i].updatedAt >= notes[j].updatedAt
  }

  /** Inserts behind every note updated no earlier, so equal times keep their order. */
  function InsertByUpdated(sorted: seq<Note>, n: Note): (r: seq<Note>)
    requires SortedByUpdatedDesc(sorted)
    ensures SortedByUpdatedDesc(r)
    ensures multiset(r) == multiset(sorted) + multiset{n}
    ensures forall k | 0 <= k < |r| :: r[k] == n || r[k] in sorted
  {
    if sorted == [] then [n]
    else if sorted[0].updatedAt >= n.updatedAt then
      var tail := InsertByUpdated(sorted[1..], n);
      InsertBehindHead(sorted, n, tail);
      [sorted[0]] + tail
    else [n] + sorted
  }

  /** The recursive step: the head goes back in front of the tail with the note inserted. */
  lemma InsertBehindHead(sorted: seq<Note>, n: Note, tail: seq<Note>)
    requires SortedByUpdatedDesc(sorted) && sorted != [] && sorted[0].updatedAt >= n.updatedAt
    requires SortedByUpdatedDesc(tail)
    requires multiset(tail) == multiset(sorted[1..]) + multiset{n}
    requires forall k | 0 <= k < |tail| :: tail[k] == n || tail[k] in sorted[1..]
    ensures var r := [sorted[0]] + tail;
      SortedByUpdatedDesc(r) && multiset(r) == multiset(sorted) + multiset{n} &&
      forall k | 0 <= k < |r| :: r[k] == n || r[k] in sorted
  {
    assert sorted == [sorted[0]] + sorted[1..];
  }

  /** `notes.sort_by(|a, b| b.updated_at.cmp(&a.updated_at))` */
  method SortByUpdatedDesc(notes: seq<Note>) returns (r: seq<Note>)
    ensures SortedByUpdatedDesc(r)
    ensures multiset(r) == multiset(notes)
  {
    r := [];
    var i := 0;
    while i < |notes|
      invariant 0 <= i <= |notes|
      invariant SortedByUpdatedDesc(r)
      invariant multiset(r) == multiset(notes[..i])
    {
      assert notes[..i + 1] == notes[..i] + [notes[i]];
      r := InsertByUpdated(r, notes[i]);
      i := i + 1;
    }
    assert notes[..i] == notes;
  }

  /** The notes whose files parsed, in directory order. */
  function Parsed(files: seq<Option<Note>>): seq<Note>
  {
    if files == [] then []
    else (if files[0].Some? then [files[0].value] else []) + Parsed(files[1..])
  }

  /** A note is kept exactly when its file parsed. */
  lemma {:induction false} ParsedMember(files: seq<Option<Note>>, n: Note)
    ensures n in Parsed(files) <==> Some(n) in files
  {
    if files != [] {
      ParsedMember(files[1..], n);
      assert files == [files[0]] + files[1..];
    }
  }

  /** `load_notes_from_disk`: every file that parsed as a note, most recently updated
      first. Each file is `None` when it is not a `.json` file or does not parse. */
  method LoadNotesFromDisk(files: seq<Option<Note>>) returns (notes: seq<Note>)
    ensures SortedByUpdatedDesc(notes)
    ensures multiset(notes) == multiset(Parsed(files))
  {
    var loaded: seq<Note> := [];
    var i := 0;
    while i < |files|
      invariant 0 <= i <= |files|
      invariant loaded + Parsed(files[i..]) == Parsed(files)
    {
      assert files[i..] == [files[i]] + files[i + 1..];
      if files[i].Some? {
        loaded := loaded + [files[i].value];
      }
      i := i + 1;
    }
    notes := SortByUpdatedDesc(loaded);
  }

  /** The table of notes behind the backend's commands. */
  class NoteTable {
    var notes: seq<Note>

    constructor (initial: seq<Note>)
      ensures notes == initial
    {
      notes := initial;
    }

    /** `notes.iter().position(|n| n.id == id)` */
    method Position(id: string) returns (idx: Option<nat>)
      ensures idx == FirstIndex(notes, id)
    {
      var i := 0;
      while i < |notes|
        invariant 0 <= i <= |notes|
        invariant forall j | 0 <= j < i :: notes[j].id != id
      {
        if notes[i].id == id {
          return Some(i);
        }
        i := i + 1;
      }
      return None;
    }

    /** `save_note`: the new note goes to the end of the table before the disk write,
        so a failed write (`diskError`) still leaves it there. */
    method SaveNote(title: string, content: string, links: seq<string>, now: Timestamp,
                    diskError: Option<string>) returns (r: Result<string>)
      modifies this
      ensures notes == old(notes) + [Note(NoteIdAt(now), title, content, links, now, now)]
      ensures r == if diskError.Some? then Err(diskError.value) else Ok(NoteIdAt(now))
    {
      var id := NoteIdAt(now);
      var note := Note(id, title, content, links, now, now);
      notes := notes + [note];
      if diskError.Some? {
        return Err(diskError.value);
      }
      return Ok(id);
    }

    /** `update_note`: the first note with the id gets the new title, content, links
        and time; an unknown id changes nothing. */
    method UpdateNote(id: string, title: string, content: string, links: seq<string>, now: Timestamp,
                      diskError: Option<string>) returns (r: Result<()>)
      modifies this
      ensures FirstIndex(old(notes), id).None? ==> notes == old(notes) && r == Err("Note not found")
      ensures FirstIndex(old(notes), id).Some? ==>
        var i := FirstIndex(old(notes), id).value;
        notes == old(notes)[i := Updated(old(notes)[i], title, content, links, now)] &&
        r == if diskError.Some? then Err(diskError.value) else Ok(())
    {
      var idx := Position(id);
      if idx.None? {
        return Err("Note not found");
      }
      var i := idx.value;
      notes := notes[i := Updated(notes[i], title, content, links, now)];
      if diskError.Some? {
        return Err(diskError.value);
      }
      return Ok(());
    }

    /** `load_note`: a copy of the first note with the id. */
    method LoadNote(id: string) returns (r: Result<Note>)
      ensures r.Err? <==> forall i | 0 <= i < |notes| :: notes[i].id != id
      ensures r.Err? ==> r.error == "Note not found"
      ensures r.Ok? ==> r.value.id == id && exists i | 0 <= i < |notes| ::
        notes[i] == r.value && forall j | 0 <= j < i :: notes[j].id != id
    {
      var idx := Position(id);
      if idx.None? {
        return Err("Note not found");
      }
      return Ok(notes[idx.value]);
    }

    /** `list_notes`: one metadata record per note, in table order. */
    method ListNotes() returns (r: seq<NoteMetadata>)
      ensures |r| == |notes|
      ensures forall i | 0 <= i < |notes| :: r[i] == MetadataOf(notes[i])
    {
      r := [];
      var i := 0;
      while i < |notes|
        invariant 0 <= i <= |notes|
        invariant |r| == i
        invariant forall k | 0 <= k < i :: r[k] == MetadataOf(notes[k])
      {
        r := r + [MetadataOf(notes[i])];
        i := i + 1;
      }
    }

    /** `delete_note`: the first note with the id is removed and the others keep their
        order; the memory change stays even when deleting the file fails. */
    method DeleteNote(id: string, diskError: Option<string>) returns (r: Result<()>)
      modifies this
      ensures FirstIndex(old(notes), id).None? ==> notes == old(notes) && r == Err("Note not found")
      ensures FirstIndex(old(notes), id).Some? ==>
        var i := FirstIndex(old(notes), id).value;
        notes == old(notes)[..i] + old(notes)[i + 1..] &&
        r == if diskError.Some? then Err(diskError.value) else Ok(())
    {
      var idx := Position(id);
      if idx.None? {
        return Err("Note not found");
      }
      var i := idx.value;
      notes := notes[..i] + notes[i + 1..];
      if diskError.Some? {
        return Err(diskError.value);
      }
      return Ok(());
    }
  }

  /** One poll of the clipboard: the plugin's read, and the fallback reader's answer,
      which is consulted only when the plugin's read fails. */
  datatype ClipboardRead = ClipboardRead(primary: Result<string>, alternative: Option<string>)

  function ReadText(r: ClipboardRead): Option<string>
  {
    if r.primary.Ok? then Some(r.primary.value) else r.alternative
  }

  /** Whether a read is emitted after `last` was. */
  predicate Emits(r: ClipboardRead, last: string)
  {
    ReadText(r).Some? && ReadText(r).value != [] && ReadText(r).value != last
  }

  /** The texts the poller emits over a run of reads, starting after `last`. */
  function Emitted(polls: seq<ClipboardRead>, last: string): seq<string>
  {
    if polls == [] then []
    else if Emits(polls[0], last) then [ReadText(polls[0]).value] + Emitted(polls[1..], ReadText(polls[0]).value)
    else Emitted(polls[1..], last)
  }

  /** `last_content` after a run of reads. */
  function LastAfter(polls: seq<ClipboardRead>, last: string): string
  {
    if polls == [] then last
    else if Emits(polls[0], last) then LastAfter(polls[1..], ReadText(polls[0]).value)
    else LastAfter(polls[1..], last)
  }

  /** Every emitted text is non-empty, differs from the one emitted before it, and the
      first differs from the starting `last`. */
  lemma {:induction false} EmittedShape(polls: seq<ClipboardRead>, last: string)
    ensures var e := Emitted(polls, last);
      (forall i | 0 <= i < |e| :: e[i] != []) &&
      (e != [] ==> e[0] != last) &&
      (forall i | 0 <= i < |e| - 1 :: e[i] != e[i + 1])
  {
    if polls != [] {
      if Emits(polls[0], last) {
        var t := ReadText(polls[0]).value;
        EmittedShape(polls[1..], t);
        var e := Emitted(polls, last);
        assert e == [t] + Emitted(polls[1..], t);
        assert forall i | 1 <= i < |e| :: e[i] == Emitted(polls[1..], t)[i - 1];
      } else {
        EmittedShape(polls[1..], last);
      }
    }
  }

  /** `last_content` moves only with an emission: it ends on the last emitted text,
      or stays where it was when nothing was emitted. */
  lemma {:induction false} LastIsLastEmitted(polls: seq<ClipboardRead>, last: string)
    ensures var e := Emitted(polls, last);
      LastAfter(polls, last) == if e == [] then last else e[|e| - 1]
  {
    if polls != [] {
      if Emits(polls[0], last) {
        LastIsLastEmitted(polls[1..], ReadText(polls[0]).value);
      } else {
        LastIsLastEmitted(polls[1..], last);
      }
    }
  }

  /** The events for a run of emitted texts; the poller never marks one as the
      application's own. */
  function EventsOf(texts: seq<string>): (r: seq<ClipboardContent>)
    ensures |r| == |texts|
    ensures forall i | 0 <= i < |texts| :: r[i].text == texts[i] && !r[i].fromApp
  {
    seq(|texts|, i requires 0 <= i < |texts| => ClipboardContent(texts[i], false))
  }

  /** The polling loop over a finite run of polls, from an empty `last_content`. */
  method Poll(polls: seq<ClipboardRead>) returns (events: seq<ClipboardContent>, last: string)
    ensures events == EventsOf(Emitted(polls, ""))
    ensures last == LastAfter(polls, "")
  {
    events := [];
    last := "";
    var i := 0;
    while i < |polls|
      invariant 0 <= i <= |polls|
      invariant events + EventsOf(Emitted(polls[i..], last)) == EventsOf(Emitted(polls, ""))
      invariant LastAfter(polls[i..], last) == LastAfter(polls, "")
    {
      assert polls[i..][1..] == polls[i + 1..];
      var text := ReadText(polls[i]);
      if text.Some? && text.value != [] && text.value != last {
        assert EventsOf(Emitted(polls[i..], last)) ==
          [ClipboardContent(text.value, false)] + EventsOf(Emitted(polls[i + 1..], text.value));
        last := text.value;
        events := events + [ClipboardContent(text.value, false)];
      }
      i := i + 1;
    }
  }
}
