/** `appState` of app.js: the saved notes and the draft being composed
    (`currentNote`), with the operations that change them. Values the
    browser supplies (the form fields, `Date.now()`, the ISO timestamp)
    are parameters. */
module App {
  import opened Text
  import opened Seqs
  import opened Classifier
  import opened Notes

  /** The title a note gets when its trimmed title is empty. */
  const Untitled: string := "Sin t\U{00ED}tulo"

  /** `addManualTag` refuses to grow the tag list beyond this. */
  const MaxTags: nat := 5

  /** `appState.currentNote`. */
  datatype Draft = Draft(title: string, content: string, color: Color, tags: seq<string>)

  /** The draft `clearNoteForm` installs. */
  const EmptyDraft: Draft := Draft("", "", Gray, [General])

  /** How `addManualTag` ended: blank input is ignored silently; the two
      rejections are the alerts "already added" and "at most 5 tags". */
  datatype TagEdit = Added | Ignored | AlreadyPresent | TooManyTags

  /** A tag list the draft and the notes keep: between one and five tags,
      no tag twice. */
  predicate ValidTags(tags: seq<string>) {
    1 <= |tags| <= MaxTags && Distinct(tags)
  }

  /** The classifier's tags form a valid tag list. */
  lemma SuggestedTagsValid(text: string)
    ensures ValidTags(TagsFor(text))
  {
    TagsForDistinct(text);
  }

  /** What `updateSuggestions` sets for the form fields `title` and
      `content`: gray and ["General"] for whitespace-only text (which is
      exactly the text that trims to "", by TrimEmptyIffBlank), else the
      classifier's colour and tags for `title + " " + content`. */
  function Suggestions(title: string, content: string): (Color, seq<string>) {
    var full := title + " " + content;
    if IsBlank(full) then (Gray, [General]) else (ColorFor(full), TagsFor(full))
  }

  /** `title + " " + content` is blank exactly when both fields are. */
  lemma BlankJoinIff(title: string, content: string)
    ensures IsBlank(title + " " + content) <==> IsBlank(title) && IsBlank(content)
  {
    var full := title + " " + content;
    if IsBlank(full) {
      forall i | 0 <= i < |title| ensures IsWhitespace(title[i]) {
        assert full[i] == title[i];
      }
      forall i | 0 <= i < |content| ensures IsWhitespace(content[i]) {
        assert full[|title| + 1 + i] == content[i];
      }
    }
    if IsBlank(title) && IsBlank(content) {
      forall i | 0 <= i < |full| ensures IsWhitespace(full[i]) {
        if i < |title| {
          assert full[i] == title[i];
        } else if i > |title| {
          assert full[i] == content[i - |title| - 1];
        }
      }
    }
  }

  /** The text is blank exactly when both fields are blank, and then the
      classifier itself gives gray and ["General"]: `updateSuggestions`
      always installs the classifier's verdict on `title + " " + content`. */
  lemma SuggestionsAreClassifierVerdict(title: string, content: string)
    ensures var full := title + " " + content;
      (Trim(full) == [] <==> IsBlank(title) && IsBlank(content))
      && Suggestions(title, content) == (ColorFor(full), TagsFor(full))
  {
    var full := title + " " + content;
    BlankJoinIff(title, content);
    TrimEmptyIffBlank(full);
    if IsBlank(full) {
      BlankTextSuggestsDefaults(full);
    }
  }

  /** The computation of `updateSuggestions`: gray and ["General"] for
      blank text, else the two classifier loops on `title + " " + content`.
      The result is `Suggestions`, which is the classifier's verdict either
      way, and a valid tag list. */
  method ComputeSuggestions(title: string, content: string) returns (color: Color, tags: seq<string>)
    ensures var full := title + " " + content;
      color == ColorFor(full) && tags == TagsFor(full)
    ensures ValidTags(tags)
    ensures (color, tags) == Suggestions(title, content)
  {
    var full := title + " " + content;
    if Trim(full) == [] {
      TrimEmptyIffBlank(full);
      BlankTextSuggestsDefaults(full);
      color, tags := Gray, [General];
    } else {
      color := SuggestColor(full);
      tags := SuggestTags(full);
    }
    SuggestedTagsValid(full);
  }

  /** `addManualTag` on the tag list `tags` with the raw input `input`:
      the outcome and the new tag list. */
  function TagAddition(tags: seq<string>, input: string): (TagEdit, seq<string>) {
    var text := Trim(input);
    if text == [] then (Ignored, tags)
    else
      var tag := Capitalize(text);
      if tag in tags then (AlreadyPresent, tags)
      else if |tags| >= MaxTags then (TooManyTags, tags)
      else (Added, (if tags == [General] then [] else tags) + [tag])
  }

  /** The outcome of a manual add, the checks taken in the source's order
      (blank input, then presence of the exact capitalised tag, then the
      limit); on every outcome but Added the tags are unchanged. */
  lemma TagAdditionOutcome(tags: seq<string>, input: string)
    ensures var (outcome, after) := TagAddition(tags, input);
      var tag := Capitalize(Trim(input));
      (outcome == Ignored <==> IsBlank(input))
      && (outcome == AlreadyPresent <==> !IsBlank(input) && tag in tags)
      && (outcome == TooManyTags <==> !IsBlank(input) && tag !in tags && |tags| >= MaxTags)
      && (outcome != Added ==> after == tags)
  {
    TrimEmptyIffBlank(input);
  }

  /** An accepted manual tag is the capitalised trimmed input; it is new,
      it goes last, and every other tag stays in place, except a lone
      "General", which it replaces. */
  lemma TagAdditionAdds(tags: seq<string>, input: string)
    requires TagAddition(tags, input).0 == Added
    ensures var after := TagAddition(tags, input).1;
      var tag := Capitalize(Trim(input));
      var kept := if tags == [General] then [] else tags;
      tag !in tags && |after| == |kept| + 1 && after[|kept|] == tag
      && forall i :: 0 <= i < |kept| ==> after[i] == kept[i]
  {
  }

  /** A manual add keeps the tag list valid: never empty, never more than
      five tags, no duplicate. */
  lemma TagAdditionKeepsValid(tags: seq<string>, input: string)
    requires ValidTags(tags)
    ensures ValidTags(TagAddition(tags, input).1)
  {
    var (outcome, after) := TagAddition(tags, input);
    if outcome == Added {
      var tag := Capitalize(Trim(input));
      var kept := if tags == [General] then [] else tags;
      assert tag !in kept;
      forall i, j | 0 <= i < j < |after| ensures after[i] != after[j] {
        if j < |kept| {
          assert after[i] == kept[i] && after[j] == kept[j];
        } else {
          assert after[j] == tag && after[i] == kept[i];
        }
      }
    }
  }

  /** Adding the same tag twice: the second add reports AlreadyPresent and
      changes nothing. */
  lemma TagAdditionTwice(tags: seq<string>, input: string)
    requires TagAddition(tags, input).0 == Added
    ensures var after := TagAddition(tags, input).1;
      TagAddition(after, input) == (AlreadyPresent, after)
  {
  }

  /** A new, already trimmed and capitalised tag is appended to a single
      tag that is not "General". */
  lemma AddToSingleTag(tag: string, input: string)
    requires TrimmedWord(input) && Capitalize(input) == input
    requires input != tag && tag != General
    ensures TagAddition([tag], input) == (Added, [tag, input])
  {
    TrimFixedIff(input);
    assert Trim(input) == input;
    assert input !in [tag];
    assert [tag] != [General] by {
      assert [tag][0] == tag;
    }
    assert [tag] + [input] == [tag, input];
  }

  /** The presence check is exact and case-sensitive: "TRABAJO" is accepted
      next to "Trabajo". */
  lemma ExampleCaseSensitiveDuplicate()
    ensures TagAddition(["Trabajo"], "TRABAJO") == (Added, ["Trabajo", "TRABAJO"])
  {
    var input, tag := "TRABAJO", "Trabajo";
    assert TrimmedWord(input) by {
      assert input[0] == 'T' && input[|input| - 1] == 'O';
    }
    assert Capitalize(input) == input by {
      assert input == [input[0]] + input[1..];
    }
    assert input != tag by {
      assert input[1] != tag[1];
    }
    assert tag != General by {
      assert tag[0] != General[0];
    }
    AddToSingleTag(tag, input);
  }

  /** The start position `Array.prototype.splice(index, 1)` uses on a list
      of length `len`: a negative index counts from the end, and the result
      is clamped to 0..len. */
  function SpliceStart(len: nat, index: int): (k: nat)
    ensures k <= len
  {
    if index < 0 then (if len + index < 0 then 0 else len + index)
    else if index < len then index else len
  }

  /** `removeTag(index)`: `splice(index, 1)`, then ["General"] if nothing
      is left. */
  function TagRemoval(tags: seq<string>, index: int): seq<string> {
    var k := SpliceStart(|tags|, index);
    var rest := if k < |tags| then tags[..k] + tags[k + 1..] else tags;
    if rest == [] then [General] else rest
  }

  /** Removing at a position in range deletes exactly that tag and keeps
      the others in order; removing the only tag leaves ["General"]. */
  lemma TagRemovalAt(tags: seq<string>, index: int)
    requires 0 <= index < |tags|
    ensures var after := TagRemoval(tags, index);
      if |tags| == 1 then after == [General]
      else
        |after| == |tags| - 1
        && (forall i :: 0 <= i < index ==> after[i] == tags[i])
        && (forall i :: index <= i < |after| ==> after[i] == tags[i + 1])
  {
  }

  /** A negative index counts from the end of the list. */
  lemma TagRemovalFromEnd(tags: seq<string>, index: int)
    requires -|tags| <= index < 0
    ensures TagRemoval(tags, index) == TagRemoval(tags, |tags| + index)
  {
    TagRemovalSameStart(tags, index, |tags| + index);
  }

  /** An index before the start, counting from the end, removes the first
      tag. */
  lemma TagRemovalBeforeStart(tags: seq<string>, index: int)
    requires index < -|tags|
    ensures TagRemoval(tags, index) == TagRemoval(tags, 0)
  {
    TagRemovalSameStart(tags, index, 0);
  }

  /** Removal depends on the index only through its start position. */
  lemma TagRemovalSameStart(tags: seq<string>, i: int, j: int)
    requires SpliceStart(|tags|, i) == SpliceStart(|tags|, j)
    ensures TagRemoval(tags, i) == TagRemoval(tags, j)
  {
  }

  /** An index past the end removes nothing. */
  lemma TagRemovalOutOfRange(tags: seq<string>, index: int)
    requires tags != [] && index >= |tags|
    ensures TagRemoval(tags, index) == tags
  {
  }

  /** A removal keeps the tag list valid. */
  lemma TagRemovalKeepsValid(tags: seq<string>, index: int)
    requires ValidTags(tags)
    ensures ValidTags(TagRemoval(tags, index))
  {
    var k := SpliceStart(|tags|, index);
    if k < |tags| && |tags| > 1 {
      var after := tags[..k] + tags[k + 1..];
      forall i, j | 0 <= i < j < |after| ensures after[i] != after[j] {
        var i' := if i < k then i else i + 1;
        var j' := if j < k then j else j + 1;
        assert after[i] == tags[i'] && after[j] == tags[j'];
      }
    }
  }

  /** The title `saveNote` stores: the trimmed title, or the placeholder
      when that is empty. It is never empty and has nothing to trim. */
  function NoteTitle(title: string): (r: string)
    ensures TrimmedWord(r)
    ensures IsBlank(title) ==> r == Untitled
    ensures !IsBlank(title) ==> r == Trim(title)
  {
    TrimEmptyIffBlank(title);
    var t := Trim(title);
    if t == [] then UntitledIsTrimmedWord(); Untitled else t
  }

  /** The placeholder has no surrounding whitespace. */
  lemma UntitledIsTrimmedWord()
    ensures TrimmedWord(Untitled)
  {
    assert |Untitled| == 10 && Untitled[0] == 'S' && Untitled[9] == 'o';
  }

  /** The note `saveNote` builds from the draft and the form fields. */
  function NewNote(d: Draft, title: string, content: string, id: string, createdAt: string): Note {
    Note(id, NoteTitle(title), Trim(content), d.color, d.tags, createdAt)
  }

  /** A note as `saveNote` stores it: trimmed non-empty content, a trimmed
      non-empty title, a valid tag list. */
  predicate SavedNote(n: Note) {
    TrimmedWord(n.content) && TrimmedWord(n.title) && ValidTags(n.tags)
  }

  /** Non-empty, and neither starts nor ends with whitespace: by
      TrimFixedIff, a non-empty string that trimming leaves unchanged. */
  predicate TrimmedWord(s: string) {
    s != [] && !IsWhitespace(s[0]) && !IsWhitespace(s[|s| - 1])
  }

  /** A note built from a valid draft and non-blank content is well formed,
      and carries the draft's colour and tags. */
  lemma NewNoteIsSaved(d: Draft, title: string, content: string, id: string, createdAt: string)
    requires ValidTags(d.tags) && !IsBlank(content)
    ensures var n := NewNote(d, title, content, id, createdAt);
      SavedNote(n) && n.id == id && n.createdAt == createdAt
      && n.color == d.color && n.tags == d.tags
      && n.content == Trim(content)
      && n.title == (if IsBlank(title) then Untitled else Trim(title))
  {
    TrimEmptyIffBlank(content);
  }

  /** Deleting the id of the note just saved, when no earlier note had
      that id, gives back the collection as it was before the save. */
  lemma DeleteUndoesSave(n: Note, notes: seq<Note>)
    requires forall i :: 0 <= i < |notes| ==> notes[i].id != n.id
    ensures WithoutId([n] + notes, n.id) == notes
  {
    assert ([n] + notes)[1..] == notes;
    WithoutAbsentId(notes, n.id);
  }

  /** Every note of `notes` is well formed. */
  predicate AllSaved(notes: seq<Note>) {
    forall n :: n in notes ==> SavedNote(n)
  }

  /** A well-formed note put in front of well-formed notes. */
  lemma AllSavedPrepend(note: Note, notes: seq<Note>)
    requires SavedNote(note) && AllSaved(notes)
    ensures AllSaved([note] + notes)
  {
  }

  /** The application state: the saved notes, most recent first, and the
      draft. */
  class NotesApp {
    var notes: seq<Note>
    var current: Draft

    /** The draft's tags are valid and every saved note is well formed. */
    ghost predicate Valid()
      reads this
    {
      ValidTags(current.tags) && AllSaved(notes)
    }

    /** The state at start-up with nothing loaded from storage. */
    constructor ()
      ensures Valid()
      ensures notes == [] && current == EmptyDraft
    {
      notes := [];
      current := EmptyDraft;
    }

    /** `updateSuggestions` with the current form fields. Any colour picked
        or tag edited by hand is replaced. */
    method UpdateSuggestions(title: string, content: string)
      requires Valid()
      modifies this
      ensures Valid()
      ensures notes == old(notes)
      ensures var full := title + " " + content;
        current == old(current).(color := ColorFor(full), tags := TagsFor(full))
    {
      var color, tags := ComputeSuggestions(title, content);
      current := current.(color := color, tags := tags);
    }

    /** A click on a colour of the colour picker. */
    method PickColor(color: Color)
      requires Valid()
      modifies this
      ensures Valid()
      ensures notes == old(notes) && current == old(current).(color := color)
    {
      current := current.(color := color);
    }

    /** `addManualTag` with the raw content of the tag input. */
    method AddManualTag(input: string) returns (outcome: TagEdit)
      requires Valid()
      modifies this
      ensures Valid()
      ensures notes == old(notes)
      ensures (outcome, current.tags) == TagAddition(old(current.tags), input)
      ensures current == old(current).(tags := current.tags)
    {
      TagAdditionKeepsValid(current.tags, input);
      var text := Trim(input);
      if text == [] {
        return Ignored;
      }
      var tag := Capitalize(text);
      if tag in current.tags {
        return AlreadyPresent;
      }
      if |current.tags| >= MaxTags {
        return TooManyTags;
      }
      if |current.tags| == 1 && current.tags[0] == General {
        current := current.(tags := []);
      }
      current := current.(tags := current.tags + [tag]);
      return Added;
    }

    /** `removeTag(index)`. */
    method RemoveTag(index: int)
      requires Valid()
      modifies this
      ensures Valid()
      ensures notes == old(notes)
      ensures current == old(current).(tags := TagRemoval(old(current.tags), index))
    {
      TagRemovalKeepsValid(current.tags, index);
      var k := SpliceStart(|current.tags|, index);
      if k < |current.tags| {
        current := current.(tags := current.tags[..k] + current.tags[k + 1..]);
      }
      if |current.tags| == 0 {
        current := current.(tags := [General]);
      }
    }

    /** `clearNoteForm`: empties the form fields, resets the draft, and
        recomputes the suggestions for the now empty fields. */
    method ClearNoteForm()
      requires Valid()
      modifies this
      ensures Valid()
      ensures notes == old(notes) && current == EmptyDraft
    {
      current := EmptyDraft;
      BlankTextSuggestsDefaults("" + " " + "");
      UpdateSuggestions("", "");
    }

    /** `saveNote` with the form fields, the id and the timestamp. Blank
        content is refused with nothing changed; otherwise the new note goes
        first and the form is cleared. */
    method SaveNote(title: string, content: string, id: string, createdAt: string) returns (saved: bool)
      requires Valid()
      modifies this
      ensures Valid()
      ensures saved <==> !IsBlank(content)
      ensures !saved ==> notes == old(notes) && current == old(current)
      ensures saved ==> notes == [NewNote(old(current), title, content, id, createdAt)] + old(notes)
      ensures saved ==> current == EmptyDraft
    {
      TrimEmptyIffBlank(content);
      var c := Trim(content);
      if c == [] {
        return false;
      }
      var note := NewNote(current, title, content, id, createdAt);
      NewNoteIsSaved(current, title, content, id, createdAt);
      AllSavedPrepend(note, notes);
      notes := [note] + notes;
      ClearNoteForm();
      return true;
    }

    /** `deleteNote(id)`, given the user's answer to the confirmation:
        declining changes nothing, accepting drops every note with `id`. */
    method DeleteNote(id: string, confirmed: bool)
      requires Valid()
      modifies this
      ensures Valid()
      ensures notes == (if confirmed then WithoutId(old(notes), id) else old(notes))
      ensures current == old(current)
    {
      if confirmed {
        WithoutIdSpec(notes, id);
        notes := WithoutId(notes, id);
      }
    }
  }
}
