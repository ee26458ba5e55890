/** The tag editor used identically by the create form and by a todo item in edit
    mode: a list of tags kept free of duplicates, a text input, and the
    suggestions drawn from the tags already in use. */
module TagEditing {
  import opened Text
  import Seqs

  datatype TagInput = TagInput(tags: seq<string>, input: string)

  /** `handleAddTag`: the trimmed input is appended when it is non-empty and not
      yet present, and only then is the input cleared. */
  function AddTag(s: TagInput): (r: TagInput)
    ensures |r.tags| <= |s.tags| + 1 && s.tags <= r.tags
    ensures |r.tags| == |s.tags| + 1 <==> Trim(s.input) != "" && Trim(s.input) !in s.tags
    ensures |r.tags| == |s.tags| + 1 ==> r.tags[|s.tags|] == Trim(s.input) && r.input == ""
    ensures |r.tags| == |s.tags| ==> r == s
    ensures Seqs.NoDuplicates(s.tags) ==> Seqs.NoDuplicates(r.tags)
  {
    var t := Trim(s.input);
    if t != "" && t !in s.tags then TagInput(s.tags + [t], "") else s
  }

  /** Adding again from the state an addition leaves behind changes nothing. */
  lemma AddTagSettles(s: TagInput)
    ensures AddTag(AddTag(s)) == AddTag(s)
  {
  }

  /** `handleRemoveTag`: the tag goes, every other tag stays in order. */
  function RemoveTag(tags: seq<string>, tag: string): (r: seq<string>)
    ensures tag !in r
    ensures forall x :: x != tag ==> (x in r <==> x in tags)
    ensures Seqs.IsSubsequence(r, tags)
    ensures Seqs.NoDuplicates(tags) ==> Seqs.NoDuplicates(r)
    ensures |r| == Seqs.CountIf(tags, (x: string) => x != tag)
  {
    Seqs.FilterIsSubsequence(tags, (x: string) => x != tag);
    Seqs.FilterLength(tags, (x: string) => x != tag);
    if Seqs.NoDuplicates(tags) then
      Seqs.FilterNoDuplicates(tags, (x: string) => x != tag);
      Seqs.Filter(tags, (x: string) => x != tag)
    else
      Seqs.Filter(tags, (x: string) => x != tag)
  }

  /** `handleSelectExistingTag`: the tag is appended unless already present. */
  function SelectExistingTag(tags: seq<string>, tag: string): (r: seq<string>)
    ensures tag in r && tags <= r
    ensures forall x :: x in r <==> x in tags || x == tag
    ensures Seqs.NoDuplicates(tags) ==> Seqs.NoDuplicates(r)
  {
    if tag !in tags then tags + [tag] else tags
  }

  /** Selecting a tag twice is selecting it once. */
  lemma SelectIdempotent(tags: seq<string>, tag: string)
    ensures SelectExistingTag(SelectExistingTag(tags, tag), tag) == SelectExistingTag(tags, tag)
  {
  }

  /** Selecting a tag and removing it again leaves the tags as removing it would. */
  lemma SelectThenRemove(tags: seq<string>, tag: string)
    ensures RemoveTag(SelectExistingTag(tags, tag), tag) == RemoveTag(tags, tag)
  {
    if tag !in tags {
      Seqs.FilterAppend(tags, tag, (x: string) => x != tag);
    }
  }

  /** The suggestion list (`availableTags.filter(tag => !tags.includes(tag))`):
      the tags in use elsewhere that this todo does not have, in their order. */
  function Suggestions(available: seq<string>, tags: seq<string>): (r: seq<string>)
    ensures forall x :: x in r <==> x in available && x !in tags
    ensures Seqs.IsSubsequence(r, available)
    ensures |r| == Seqs.CountIf(available, (x: string) => x !in tags)
  {
    Seqs.FilterIsSubsequence(available, (x: string) => x !in tags);
    Seqs.FilterLength(available, (x: string) => x !in tags);
    Seqs.Filter(available, (x: string) => x !in tags)
  }

  /** Picking a suggestion adds exactly that tag, and it is no longer suggested. */
  lemma PickSuggestion(available: seq<string>, tags: seq<string>, tag: string)
    requires tag in Suggestions(available, tags)
    ensures SelectExistingTag(tags, tag) == tags + [tag]
    ensures tag !in Suggestions(available, SelectExistingTag(tags, tag))
  {
  }
}
