/** What a producer's answer must be before a chunk may be finished with it (core/validator.py). */
module Validator {
  import opened Wrappers
  import opened Text

  /** One element of the answer's `lines`; a field that is absent or not a string is None. */
  datatype Entry = NotAnObject | Entry(id: Option<string>, text: Option<string>)

  datatype Verdict = Valid(texts: map<string, string>) | Invalid(message: string) | BrokenPair(message: string)

  /** The proposed text as it will be kept: a blank is kept only for a source that is blank too. */
  function CheckedText(id: string, text: Option<string>, ocr: map<string, string>): Option<string> {
    if text.Some? && !Blank(text.value) then text
    else if id in ocr && Blank(ocr[id]) then Some("")
    else None
  }

  /** Nothing is wrong with the entry taken alone. */
  predicate Sound(e: Entry, expected: seq<string>, ocr: map<string, string>) {
    && e.Entry? && e.id.Some? && e.id.value != "" && e.id.value in expected
    && var text := CheckedText(e.id.value, e.text, ocr);
    && text.Some? && !HasLineSeparator(text.value)
  }

  /** The ids an answer must cover. */
  function Required(expected: seq<string>, targets: Option<seq<string>>): seq<string> {
    if targets.None? then expected else targets.value
  }

  predicate Counted(n: nat, expected: seq<string>, targets: Option<seq<string>>) {
    if targets.None? then n == |expected| else n <= |expected|
  }

  /** Every entry is sound and names a line of its own, and no required line is missing. */
  ghost predicate Acceptable(entries: seq<Entry>, expected: seq<string>, ocr: map<string, string>, targets: Option<seq<string>>) {
    && Counted(|entries|, expected, targets)
    && (forall k {:trigger entries[k]} :: 0 <= k < |entries| ==> Sound(entries[k], expected, ocr))
    && (forall j, k :: 0 <= j < k < |entries| && entries[j].Entry? && entries[k].Entry? ==> entries[j].id != entries[k].id)
    && forall x <- Required(expected, targets) :: exists k :: 0 <= k < |entries| && entries[k].Entry? && entries[k].id == Some(x)
  }

  /** The texts say what the sound entries say, id by id, and nothing else. */
  ghost predicate Reads(entries: seq<Entry>, ocr: map<string, string>, texts: map<string, string>) {
    && (forall k {:trigger entries[k]} :: 0 <= k < |entries| && entries[k].Entry? && entries[k].id.Some? ==>
          entries[k].id.value in texts
          && CheckedText(entries[k].id.value, entries[k].text, ocr) == Some(texts[entries[k].id.value]))
    && forall x :: x in texts ==> exists k :: 0 <= k < |entries| && entries[k].Entry? && entries[k].id == Some(x)
  }

  /** What is wrong with an entry, given the ids already read. */
  function Fault(e: Entry, seen: set<string>, expected: seq<string>, ocr: map<string, string>): (fault: Option<string>)
    ensures fault.None? <==> Sound(e, expected, ocr) && e.id.value !in seen
  {
    if e.NotAnObject? then Some("Each line entry must be a dict")
    else if e.id.None? || e.id.value == "" then Some("Entry missing 'line_id'")
    else if e.id.value in seen then Some("Duplicate line_id in response")
    else if e.id.value !in expected then Some("Unknown line_id in response")
    else
      var text := CheckedText(e.id.value, e.text, ocr);
      if text.None? then Some("corrected_text is empty or missing")
      else if HasLineSeparator(text.value) then Some("corrected_text contains a line separator")
      else None
  }

  ghost predicate SoundUpTo(entries: seq<Entry>, k: nat, expected: seq<string>, ocr: map<string, string>, texts: map<string, string>)
    requires k <= |entries|
  {
    && (forall j {:trigger entries[j]} :: 0 <= j < k ==> Sound(entries[j], expected, ocr))
    && (forall i, j :: 0 <= i < j < k && entries[i].Entry? && entries[j].Entry? ==> entries[i].id != entries[j].id)
    && Reads(entries[..k], ocr, texts)
  }

  method ReadEntries(entries: seq<Entry>, expected: seq<string>, ocr: map<string, string>)
    returns (fault: Option<string>, texts: map<string, string>)
    ensures fault.None? ==> SoundUpTo(entries, |entries|, expected, ocr, texts)
    ensures fault.Some? ==> forall targets :: !Acceptable(entries, expected, ocr, targets)
  {
    texts, fault := map[], None;
    for k := 0 to |entries|
      invariant SoundUpTo(entries, k, expected, ocr, texts)
    {
      fault := Fault(entries[k], texts.Keys, expected, ocr);
      if fault.Some? {
        FaultRefutes(entries, k, expected, ocr, texts);
        return;
      }
      var id := entries[k].id.value;
      var text := CheckedText(id, entries[k].text, ocr).value;
      SoundNext(entries, k, expected, ocr, texts, text);
      texts := texts[id := text];
    }
    fault := None;
  }

  lemma SoundNext(entries: seq<Entry>, k: nat, expected: seq<string>, ocr: map<string, string>, texts: map<string, string>,
                  text: string)
    requires k < |entries| && SoundUpTo(entries, k, expected, ocr, texts)
    requires Sound(entries[k], expected, ocr) && entries[k].id.value !in texts
    requires CheckedText(entries[k].id.value, entries[k].text, ocr) == Some(text)
    ensures SoundUpTo(entries, k + 1, expected, ocr, texts[entries[k].id.value := text])
  {
    OneMoreEntry(entries, k, ocr, texts, text);
  }

  lemma FaultRefutes(entries: seq<Entry>, k: nat, expected: seq<string>, ocr: map<string, string>, texts: map<string, string>)
    requires k < |entries| && SoundUpTo(entries, k, expected, ocr, texts)
    requires Fault(entries[k], texts.Keys, expected, ocr).Some?
    ensures forall targets :: !Acceptable(entries, expected, ocr, targets)
  {
    if Sound(entries[k], expected, ocr) {
      var j :| 0 <= j < |entries[..k]| && entries[..k][j].Entry? && entries[..k][j].id == entries[k].id;
      assert entries[j].id == entries[k].id;
    }
  }

  /** The required ids are all read exactly when each has its entry. */
  lemma MissingIds(entries: seq<Entry>, expected: seq<string>, ocr: map<string, string>, texts: map<string, string>,
                   required: seq<string>)
    requires SoundUpTo(entries, |entries|, expected, ocr, texts)
    ensures (forall x <- required :: x in texts) <==>
            forall x <- required :: exists k :: 0 <= k < |entries| && entries[k].Entry? && entries[k].id == Some(x)
  {
    assert entries[..|entries|] == entries;
  }

  /** An answer is refused as malformed exactly when it is not acceptable, and otherwise read as it
      stands and let through exactly when it breaks no hyphenated pair. */
  method Validate(entries: seq<Entry>, expected: seq<string>, ocr: map<string, string>, targets: Option<seq<string>>,
                  integrity: map<string, string> -> Option<string>)
    returns (verdict: Verdict)
    ensures verdict.Invalid? <==> !Acceptable(entries, expected, ocr, targets)
    ensures verdict.Valid? ==> Reads(entries, ocr, verdict.texts) && integrity(verdict.texts) == None
    ensures verdict.BrokenPair? ==> exists texts :: Reads(entries, ocr, texts) && integrity(texts) == Some(verdict.message)
  {
    if !Counted(|entries|, expected, targets) { return Invalid("Line count mismatch"); }
    var fault, texts := ReadEntries(entries, expected, ocr);
    if fault.Some? { return Invalid(fault.value); }
    MissingIds(entries, expected, ocr, texts, Required(expected, targets));
    if exists x <- Required(expected, targets) :: x !in texts { return Invalid("Missing line_ids in response"); }
    assert entries[..|entries|] == entries;
    var broken := integrity(texts);
    return if broken.Some? then BrokenPair(broken.value) else Valid(texts);
  }

  lemma OneMoreEntry(entries: seq<Entry>, k: nat, ocr: map<string, string>, texts: map<string, string>, text: string)
    requires k < |entries| && Reads(entries[..k], ocr, texts)
    requires entries[k].Entry? && entries[k].id.Some? && entries[k].id.value !in texts
    requires CheckedText(entries[k].id.value, entries[k].text, ocr) == Some(text)
    ensures Reads(entries[..k + 1], ocr, texts[entries[k].id.value := text])
    ensures forall j :: 0 <= j < k && entries[j].Entry? ==> entries[j].id != entries[k].id
  {
    var id := entries[k].id.value;
    var before, after := entries[..k], entries[..k + 1];
    forall j | 0 <= j < k && entries[j].Entry? ensures entries[j].id != Some(id) {
      assert before[j] == entries[j];
    }
    forall j | 0 <= j < |after| && after[j].Entry? && after[j].id.Some?
      ensures var t := texts[id := text];
              after[j].id.value in t && CheckedText(after[j].id.value, after[j].text, ocr) == Some(t[after[j].id.value])
    {
      if j < k { assert after[j] == before[j]; }
    }
    forall x | x in texts[id := text] ensures exists j :: 0 <= j < |after| && after[j].Entry? && after[j].id == Some(x) {
      if x == id {
        assert after[k].id == Some(x);
      } else {
        var j :| 0 <= j < |before| && before[j].Entry? && before[j].id == Some(x);
        assert after[j] == before[j];
      }
    }
  }
}
