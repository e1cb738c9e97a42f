/**
 * The notification-email field of the form settings page
 * (src/components/dashboard/form-settings.tsx): the stored list is shown as
 * one comma-separated text field, and the edited text is parsed back into
 * a list when the settings are saved.
 */
module NotificationEmails {
  import opened Wrappers
  import opened Text
  import opened Seqs

  /** `.map((e) => e.trim())`. */
  function TrimAll(parts: seq<string>): (r: seq<string>)
    ensures |r| == |parts|
    ensures forall i :: 0 <= i < |parts| ==> r[i] == Trim(parts[i])
  {
    seq(|parts|, i requires 0 <= i < |parts| => Trim(parts[i]))
  }

  /** `.filter(Boolean)` on strings: drop the empty ones. */
  function DropEmpty(parts: seq<string>): seq<string> {
    Filter(p => p != "", parts)
  }

  /** The pipeline applied to a non-empty field: split at commas, trim, drop empties. */
  function Entries(text: string): seq<string> {
    DropEmpty(TrimAll(Split(text, ',')))
  }

  /**
   * The list saved from the field's text; an absent or empty field gives `[]`.
   * Every entry is non-empty, has no surrounding whitespace and no comma,
   * every non-empty trimmed piece is kept as often as it occurs, and the
   * entries keep the order of the text.
   */
  function Parse(field: Option<string>): (r: seq<string>)
    ensures field == None || field == Some("") ==> r == []
    ensures forall e :: e in r ==> e != "" && IsTrimmed(e) && ',' !in e
    ensures field.Some? ==> IsSubsequence(r, TrimAll(Split(field.value, ',')))
    ensures field.Some? ==> forall p :: p in TrimAll(Split(field.value, ',')) && p != "" ==> p in r
    ensures field.Some? ==> forall p :: p != "" ==> multiset(r)[p] == multiset(TrimAll(Split(field.value, ',')))[p]
  {
    match field
    case None => []
    case Some(text) =>
      if text == "" then []
      else
        EntriesClean(text);
        FilterCount(p => p != "", TrimAll(Split(text, ',')));
        Entries(text)
  }

  /** Each piece is trimmed and, coming from `split`, holds no comma. */
  lemma EntriesClean(text: string)
    ensures forall e :: e in Entries(text) ==> e != "" && IsTrimmed(e) && ',' !in e
  {
    var pieces := Split(text, ',');
    var trimmed := TrimAll(pieces);
    forall e | e in trimmed ensures IsTrimmed(e) && ',' !in e {
      var i :| 0 <= i < |trimmed| && trimmed[i] == e;
      assert e == Trim(pieces[i]) && pieces[i] in pieces;
    }
  }

  /** The field's initial text: `notificationEmails?.join(", ") || ""`. */
  function Render(stored: Option<seq<string>>): (text: string)
    ensures stored == None || stored == Some([]) ==> text == ""
  {
    match stored
    case None => ""
    case Some(emails) => Join(emails, ", ")
  }

  /** The entries the parser accepts unchanged. */
  predicate IsCleanEntry(e: string) {
    e != "" && IsTrimmed(e) && ',' !in e
  }

  /** Every piece with one space in front. */
  function Spaced(parts: seq<string>): (r: seq<string>)
    ensures |r| == |parts|
    ensures forall i :: 0 <= i < |parts| ==> r[i] == " " + parts[i]
  {
    seq(|parts|, i requires 0 <= i < |parts| => " " + parts[i])
  }

  /** Joining with `", "` is joining with `","` after putting a space in front of every piece but the first. */
  lemma {:induction false} JoinCommaSpace(emails: seq<string>)
    requires |emails| >= 1
    ensures Join(emails, ", ") == Join([emails[0]] + Spaced(emails[1..]), ",")
    decreases |emails|
  {
    if |emails| > 1 {
      var rest := emails[1..];
      JoinCommaSpace(rest);
      var padded := [" " + rest[0]] + Spaced(rest[1..]);
      assert Spaced(rest) == padded;
      if |rest| == 1 {
        assert Join(padded, ",") == " " + rest[0];
      } else {
        assert Join(padded, ",") == " " + rest[0] + "," + Join(Spaced(rest[1..]), ",");
        assert Join([rest[0]] + Spaced(rest[1..]), ",") == rest[0] + "," + Join(Spaced(rest[1..]), ",");
      }
      assert Join(padded, ",") == " " + Join(rest, ", ");
      var all := [emails[0]] + padded;
      assert all[1..] == padded;
    }
  }

  /** Splitting a `", "`-joined list at commas gives the pieces, all but the first with a leading space. */
  lemma SplitRendered(emails: seq<string>)
    requires |emails| >= 1
    requires forall e :: e in emails ==> ',' !in e
    ensures Split(Join(emails, ", "), ',') == [emails[0]] + Spaced(emails[1..])
  {
    JoinCommaSpace(emails);
    var parts := [emails[0]] + Spaced(emails[1..]);
    forall i | 1 <= i < |parts| ensures ',' !in parts[i] {
      assert parts[i] == " " + emails[i];
      assert emails[i] in emails;
    }
    assert forall p :: p in parts ==> ',' !in p;
    SplitJoin(parts, ',');
  }

  /** A clean entry with one space in front trims back to itself. */
  lemma TrimSpaced(e: string)
    requires IsCleanEntry(e)
    ensures Trim(" " + e) == e
  {
    var s := " " + e;
    assert SkipSpace(s, 0) == SkipSpace(s, 1) == 1;
    assert SkipSpaceBack(s, 1, |s|) == |s|;
    assert s[1..] == e;
  }

  /** Trimming the split pieces of a rendered list recovers the list. */
  lemma TrimRendered(emails: seq<string>)
    requires |emails| >= 1
    requires forall e :: e in emails ==> IsCleanEntry(e)
    ensures TrimAll([emails[0]] + Spaced(emails[1..])) == emails
  {
    var parts := [emails[0]] + Spaced(emails[1..]);
    var trimmed := TrimAll(parts);
    forall i | 0 <= i < |emails| ensures trimmed[i] == emails[i] {
      if i > 0 {
        assert parts[i] == Spaced(emails[1..])[i - 1];
        TrimSpaced(emails[i]);
      } else {
        assert IsTrimmed(emails[0]);
      }
    }
  }

  /**
   * Round trip: rendering a stored list of clean addresses and saving the
   * field unchanged gives back the same list.
   */
  lemma RoundTrip(emails: seq<string>)
    requires forall e :: e in emails ==> IsCleanEntry(e)
    ensures Parse(Some(Render(Some(emails)))) == emails
  {
    if emails != [] {
      var text := Join(emails, ", ");
      SplitRendered(emails);
      TrimRendered(emails);
      assert TrimAll(Split(text, ',')) == emails;
      FilterKeepsAll(p => p != "", emails);
      assert Entries(text) == emails;
    }
  }
}
