/**
 * The tag list editor (src/components/shared/tags-input.tsx): a list of
 * tags owned by the parent, changed through `onChange`, and the text of
 * the input field, which the key handler clears in place.
 */
module TagsInput {
  import opened Text
  import opened Seqs

  /** The editor's observable state: the tag list and the input field's text. */
  datatype State = State(tags: seq<string>, input: string)

  /** Space, comma and Enter commit the typed text as a tag. */
  predicate IsSeparator(key: string) {
    key == " " || key == "," || key == "Enter"
  }

  /** The tag a separator key would add, if any: the trimmed text, when it is
      non-empty and not already in the list. */
  predicate CanAdd(s: State) {
    Trim(s.input) != "" && Trim(s.input) !in s.tags
  }

  /** Backspace in an empty field deletes the last tag, if there is one. */
  predicate CanPop(s: State) {
    s.input == "" && |s.tags| > 0
  }

  /**
   * `handleKeyDown` for the key named `key`. The list changes exactly when a
   * separator commits a new tag or Backspace pops the last one; a new tag is
   * appended at the end and empties the field; a pop keeps the rest in order.
   */
  function KeyDown(s: State, key: string): (r: State)
    ensures r.tags != s.tags <==>
              (IsSeparator(key) && CanAdd(s)) || (key == "Backspace" && CanPop(s))
    ensures IsSeparator(key) && CanAdd(s) ==>
              r.tags == s.tags + [Trim(s.input)] && r.input == ""
    ensures key == "Backspace" && CanPop(s) ==>
              r.tags + [s.tags[|s.tags| - 1]] == s.tags && r.input == s.input
    ensures r.tags == s.tags ==> r == s
  {
    if IsSeparator(key) then
      var tag := Trim(s.input);
      if tag != "" && tag !in s.tags then
        State(s.tags + [tag], "")
      else s
    else if key == "Backspace" && s.input == "" && |s.tags| > 0 then
      var tags' := s.tags[..|s.tags| - 1];
      assert tags' + [s.tags[|s.tags| - 1]] == s.tags;
      assert tags' != s.tags;
      State(tags', s.input)
    else s
  }

  /** Key events keep a duplicate-free tag list duplicate-free. */
  lemma KeyDownKeepsUnique(s: State, key: string)
    requires NoDuplicates(s.tags)
    ensures NoDuplicates(KeyDown(s, key).tags)
  {
    var r := KeyDown(s, key);
    if IsSeparator(key) && CanAdd(s) {
      assert r.tags == s.tags + [Trim(s.input)];
      assert forall i :: 0 <= i < |s.tags| ==> r.tags[i] == s.tags[i];
    }
  }

  /** `value.filter((t) => t !== tag)`. */
  function Without(tags: seq<string>, tag: string): seq<string> {
    Filter(t => t != tag, tags)
  }

  /** Removing a tag drops every copy of it and keeps every copy of every
      other tag, in order. */
  lemma RemoveSpec(tags: seq<string>, tag: string)
    ensures tag !in Without(tags, tag)
    ensures forall t :: t in Without(tags, tag) <==> t in tags && t != tag
    ensures forall t :: t in tags ==> multiset(Without(tags, tag))[t] == if t == tag then 0 else multiset(tags)[t]
    ensures IsSubsequence(Without(tags, tag), tags)
    ensures tag !in tags ==> Without(tags, tag) == tags
  {
    FilterCount(t => t != tag, tags);
    if tag !in tags {
      FilterKeepsAll(t => t != tag, tags);
    }
  }

  /** In a duplicate-free list, removing the tag at position `i` splices it out. */
  lemma {:induction false} RemoveUnique(tags: seq<string>, i: int)
    requires NoDuplicates(tags) && 0 <= i < |tags|
    ensures Without(tags, tags[i]) == tags[..i] + tags[i + 1..]
  {
    var tag := tags[i];
    var keep := t => t != tag;
    assert tags == tags[..i] + ([tag] + tags[i + 1..]);
    FilterConcat(keep, tags[..i], [tag] + tags[i + 1..]);
    FilterConcat(keep, [tag], tags[i + 1..]);
    FilterKeepsAll(keep, tags[..i]);
    FilterKeepsAll(keep, tags[i + 1..]);
    assert Filter(keep, [tag]) == [];
  }

  /** The editor as the browser runs it: the parent's list and the live input field. */
  class TagsField {
    var value: seq<string>
    var inputText: string

    function Current(): State
      reads this
    {
      State(value, inputText)
    }

    constructor (value: seq<string>, inputText: string)
      ensures Current() == State(value, inputText)
    {
      this.value := value;
      this.inputText := inputText;
    }

    /** `handleKeyDown`: append the trimmed text and clear the field, or pop the last tag. */
    method HandleKeyDown(key: string)
      modifies this
      ensures Current() == KeyDown(old(Current()), key)
    {
      ghost var before := Current();
      if IsSeparator(key) {
        var tag := Trim(inputText);
        if tag != "" && tag !in value {
          value := value + [tag];
          inputText := "";
        }
        assert Current() == KeyDown(before, key);
      } else if key == "Backspace" && inputText == "" && |value| > 0 {
        value := value[..|value| - 1];
      }
    }

    /** `handleRemove`: drop every occurrence of `tag`; the field is untouched. */
    method HandleRemove(tag: string)
      modifies this
      ensures Current() == State(Without(old(value), tag), old(inputText))
    {
      value := Without(value, tag);
    }
  }
}
