/**
 * The supplier form's record logic (src/components/suppliers/SupplierForm.tsx):
 * loading a supplier into the form, editing the tag list, the star rating,
 * and the submit sequence with its `saving` and `error` flags.
 */
module SupplierForm {

  import opened Wrappers
  import opened Text

  /** The form's fields. */
  datatype Form = Form(
    name: string,
    orgNumber: string,
    contactPerson: string,
    contactEmail: string,
    contactPhone: string,
    address: string,
    city: string,
    notes: string,
    rating: int,
    tags: seq<string>)

  /** A stored supplier as the form receives it; `None` is a `null` column. */
  datatype SupplierRecord = SupplierRecord(
    name: Option<string>,
    orgNumber: Option<string>,
    contactPerson: Option<string>,
    contactEmail: Option<string>,
    contactPhone: Option<string>,
    address: Option<string>,
    city: Option<string>,
    notes: Option<string>,
    rating: Option<int>,
    tags: Option<seq<string>>)

  function TextOr(v: Option<string>): (s: string)
    ensures v.None? ==> s == ""
    ensures v.Some? ==> s == v.value
  {
    if v.Some? then v.value else ""
  }

  const EmptyForm: Form := Form("", "", "", "", "", "", "", "", 0, [])

  /** The form for a supplier, with '' / 0 / [] for missing fields, or the empty form. */
  function Load(supplier: Option<SupplierRecord>): (f: Form)
    ensures supplier.None? ==> f == EmptyForm
    ensures supplier.Some? ==>
      var s := supplier.value;
      f.name == TextOr(s.name) && f.contactPerson == TextOr(s.contactPerson) && f.contactEmail == TextOr(s.contactEmail)
      && f.orgNumber == TextOr(s.orgNumber) && f.contactPhone == TextOr(s.contactPhone) && f.address == TextOr(s.address)
      && f.city == TextOr(s.city) && f.notes == TextOr(s.notes)
      && f.rating == (if s.rating.Some? && s.rating.value != 0 then s.rating.value else 0)
      && f.tags == (if s.tags.Some? then s.tags.value else [])
  {
    match supplier
    case None => EmptyForm
    case Some(s) =>
      Form(TextOr(s.name), TextOr(s.orgNumber), TextOr(s.contactPerson), TextOr(s.contactEmail),
           TextOr(s.contactPhone), TextOr(s.address), TextOr(s.city), TextOr(s.notes),
           if s.rating.Some? then s.rating.value else 0,
           if s.tags.Some? then s.tags.value else [])
  }

  /** A tag as `addTag` stores it: trimmed, then lower-cased. */
  function NormalizeTag(input: string): string {
    ToLower(Trim(input))
  }

  /** The form and the tag input after `addTag`. */
  datatype TagEdit = TagEdit(form: Form, input: string)

  /** `addTag`: a new non-empty tag is appended and the input cleared; otherwise nothing changes. */
  function AddTag(form: Form, input: string): (r: TagEdit)
    ensures var tag := NormalizeTag(input);
      (tag == "" || tag in form.tags ==> r == TagEdit(form, input))
      && (tag != "" && tag !in form.tags ==> r == TagEdit(form.(tags := form.tags + [tag]), ""))
  {
    var tag := NormalizeTag(input);
    if tag != "" && tag !in form.tags then TagEdit(form.(tags := form.tags + [tag]), "") else TagEdit(form, input)
  }

  predicate Distinct(tags: seq<string>) {
    forall i, j :: 0 <= i < j < |tags| ==> tags[i] != tags[j]
  }

  /** Adding a tag never introduces a duplicate. */
  lemma AddTagKeepsDistinct(form: Form, input: string)
    requires Distinct(form.tags)
    ensures Distinct(AddTag(form, input).form.tags)
  {
    var tag := NormalizeTag(input);
    if tag != "" && tag !in form.tags {
      var t := form.tags + [tag];
      forall i, j | 0 <= i < j < |t| ensures t[i] != t[j] {
        if j == |form.tags| {
          assert t[i] == form.tags[i];
        } else {
          assert t[i] == form.tags[i] && t[j] == form.tags[j];
        }
      }
    }
  }

  /** A new tag goes last, exactly as normalised, and the input is cleared. */
  lemma AddedTagIsNormal(form: Form, input: string)
    requires NormalizeTag(input) != "" && NormalizeTag(input) !in form.tags
    ensures var t := AddTag(form, input).form.tags;
      |t| == |form.tags| + 1 && t[|t| - 1] == NormalizeTag(input) && AddTag(form, input).input == ""
  {
  }

  /** `tags.filter(tag => tag !== removed)` */
  function RemoveTag(tags: seq<string>, removed: string): (r: seq<string>)
    ensures removed !in r
    ensures forall t :: t in r <==> t in tags && t != removed
    ensures |r| <= |tags|
  {
    if |tags| == 0 then []
    else
      var init := RemoveTag(tags[..|tags| - 1], removed);
      var last := tags[|tags| - 1];
      assert forall t :: t in tags <==> t in tags[..|tags| - 1] || t == last;
      if last == removed then init else init + [last]
  }

  /** Removal keeps the order of the rest: it works piece by piece. */
  lemma {:induction false} RemoveTagAppend(a: seq<string>, b: seq<string>, removed: string)
    ensures RemoveTag(a + b, removed) == RemoveTag(a, removed) + RemoveTag(b, removed)
    decreases |b|
  {
    if |b| == 0 {
      assert a + b == a;
    } else {
      var b' := b[..|b| - 1];
      assert (a + b)[..|a + b| - 1] == a + b';
      assert (a + b)[|a + b| - 1] == b[|b| - 1];
      RemoveTagAppend(a, b', removed);
    }
  }

  /** Removing a tag that is not there changes nothing. */
  lemma {:induction false} RemoveAbsent(tags: seq<string>, removed: string)
    requires removed !in tags
    ensures RemoveTag(tags, removed) == tags
    decreases |tags|
  {
    if |tags| > 0 {
      assert tags[..|tags| - 1] + [tags[|tags| - 1]] == tags;
      RemoveAbsent(tags[..|tags| - 1], removed);
    }
  }

  /** Removing the tag just added gives back the tags as they were. */
  lemma RemoveUndoesAdd(form: Form, input: string)
    requires NormalizeTag(input) != "" && NormalizeTag(input) !in form.tags
    ensures RemoveTag(AddTag(form, input).form.tags, NormalizeTag(input)) == form.tags
  {
    var tag := NormalizeTag(input);
    RemoveTagAppend(form.tags, [tag], tag);
    RemoveAbsent(form.tags, tag);
    assert [tag][..0] == [];
  }

  /** A star click: the current star resets the rating to 0, any other star sets it. */
  function Rate(rating: int, star: int): (r: int)
    requires 1 <= star <= 5
    ensures rating == star ==> r == 0
    ensures rating != star ==> r == star
  {
    if rating == star then 0 else star
  }

  /** Clicks keep the rating within 0..5, and a second click on the same star clears it. */
  lemma RatingStaysInRange(rating: int, star: int)
    requires 0 <= rating <= 5 && 1 <= star <= 5
    ensures 0 <= Rate(rating, star) <= 5
    ensures rating != star ==> Rate(Rate(rating, star), star) == 0
  {
  }

  /** `rating || undefined`: an unrated supplier is saved without a rating. */
  function SubmittedRating(rating: int): (r: Option<int>)
    ensures r.None? <==> rating == 0
    ensures r.Some? ==> r.value == rating
  {
    if rating == 0 then None else Some(rating)
  }

  /** What `onSave` receives: the form's fields, its rating replaced by `rating`. */
  datatype Submission = Submission(fields: Form, rating: Option<int>)

  /** How the `onSave` call ends. */
  datatype SaveOutcome = Saved | ThrewError(message: string) | ThrewOther

  const NameRequired: string := "Namn krävs"
  const SaveFailed: string := "Kunde inte spara"

  class FormState {
    var form: Form
    var error: Option<string>
    var saving: bool
    var closed: bool

    constructor (supplier: Option<SupplierRecord>)
      ensures form == Load(supplier) && error.None? && !saving && !closed
    {
      form := Load(supplier);
      error := None;
      saving := false;
      closed := false;
    }

    /**
     * `handleSubmit`: an empty trimmed name only sets the error. Otherwise
     * the flags go saving, error cleared; the form is handed to `onSave`; on
     * success the dialog closes, on a throw the error shows its message; and
     * `saving` is always cleared at the end.
     */
    method Submit(outcome: SaveOutcome) returns (sent: Option<Submission>)
      modifies this
      ensures form == old(form)
      ensures Trim(form.name) == "" ==>
        sent.None? && error == Some(NameRequired) && saving == old(saving) && closed == old(closed)
      ensures Trim(form.name) != "" ==>
        sent == Some(Submission(form, SubmittedRating(form.rating))) && !saving
        && (outcome.Saved? ==> error.None? && closed)
        && (outcome.ThrewError? ==> error == Some(outcome.message) && closed == old(closed))
        && (outcome.ThrewOther? ==> error == Some(SaveFailed) && closed == old(closed))
    {
      if Trim(form.name) == "" {
        error := Some(NameRequired);
        return None;
      }
      saving := true;
      error := None;
      sent := Some(Submission(form, SubmittedRating(form.rating)));
      match outcome {
        case Saved =>
          closed := true;
        case ThrewError(message) =>
          error := Some(message);
        case ThrewOther =>
          error := Some(SaveFailed);
      }
      saving := false;
    }
  }

  /** The name is refused exactly when it is white space only. */
  lemma BlankNameRefused(form: Form)
    ensures Trim(form.name) == "" <==> AllSpace(form.name)
  {
    TrimEmptyIff(form.name);
  }
}
