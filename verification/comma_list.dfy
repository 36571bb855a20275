/** Comma-separated lists as the article and news forms read and write them:
    authors and tags are typed as one line of text, saved as a list. */
module CommaList {
  import opened Js

  /** An entry of a saved list: non-empty, trimmed and free of commas. */
  predicate IsEntry(s: string) {
    s != "" && IsTrimmed(s) && ',' !in s
  }

  predicate AllEntries(xs: seq<string>) {
    forall i :: 0 <= i < |xs| ==> IsEntry(xs[i])
  }

  /** `xs.map(x => x.trim())`. */
  function TrimAll(xs: seq<string>): seq<string> {
    seq(|xs|, i requires 0 <= i < |xs| => Trim(xs[i]))
  }

  /** `xs.filter(Boolean)` on strings: the empty strings are dropped, the
      others kept in order. */
  function DropEmpty(xs: seq<string>): (ys: seq<string>)
    ensures forall i :: 0 <= i < |ys| ==> ys[i] != "" && ys[i] in xs
    ensures forall i :: 0 <= i < |xs| && xs[i] != "" ==> xs[i] in ys
    ensures |ys| <= |xs|
    decreases |xs|
  {
    if |xs| == 0 then []
    else if xs[0] == "" then DropEmpty(xs[1..])
    else [xs[0]] + DropEmpty(xs[1..])
  }

  /** `text.split(",").map(x => x.trim()).filter(Boolean)`: every entry is
      non-empty, trimmed and comma-free; text without a comma is one entry
      (or none when it is blank). */
  function Parse(text: string): (entries: seq<string>)
    ensures AllEntries(entries)
    ensures ',' !in text ==> entries == (if AllSpace(text) then [] else [Trim(text)])
  {
    ParseSpecification(text);
    DropEmpty(TrimAll(Split(text, ',')))
  }

  lemma ParseSpecification(text: string)
    ensures var entries := DropEmpty(TrimAll(Split(text, ',')));
      AllEntries(entries) &&
      (',' !in text ==> entries == (if AllSpace(text) then [] else [Trim(text)]))
  {
    var pieces := Split(text, ',');
    var trimmed := TrimAll(pieces);
    forall i | 0 <= i < |trimmed|
      ensures trimmed[i] == "" || IsEntry(trimmed[i])
    {
      TrimHasNoNewCharacters(pieces[i], ',');
    }
    var entries := DropEmpty(trimmed);
    forall j | 0 <= j < |entries|
      ensures IsEntry(entries[j])
    {
      var i :| 0 <= i < |trimmed| && trimmed[i] == entries[j];
    }
    if ',' !in text {
      SplitWithoutSeparator(text, ',');
      assert trimmed == [Trim(text)];
    }
  }

  /** `xs.join(", ")`: how the forms show a saved list for editing. */
  function Format(xs: seq<string>): string {
    Join(xs, ", ")
  }

  /** Trimming only removes characters. */
  lemma TrimHasNoNewCharacters(s: string, c: char)
    requires c !in s
    ensures c !in Trim(s)
  {
    var t := TrimStart(s);
    assert c !in t;
  }

  /** Every piece after the first is preceded by the space of the ", " separator. */
  function Spaced(xs: seq<string>): seq<string> {
    seq(|xs|, i requires 0 <= i < |xs| => " " + xs[i])
  }

  lemma {:induction false} SplitFormatted(xs: seq<string>)
    requires |xs| >= 1
    requires forall i :: 0 <= i < |xs| ==> ',' !in xs[i]
    ensures Split(Format(xs), ',') == [xs[0]] + Spaced(xs[1..])
    decreases |xs|
  {
    if |xs| == 1 {
      SplitWithoutSeparator(xs[0], ',');
    } else {
      var tail := Format(xs[1..]);
      assert Format(xs) == xs[0] + [','] + (" " + tail);
      SplitAtSeparator(xs[0], ',', " " + tail);
      SplitFormatted(xs[1..]);
      var rest := Split(tail, ',');
      assert rest == [xs[1]] + Spaced(xs[2..]);
      assert (" " + tail)[1..] == tail;
      assert Split(" " + tail, ',') == [" " + rest[0]] + rest[1..];
      assert Spaced(xs[1..]) == [" " + xs[1]] + Spaced(xs[2..]);
    }
  }

  lemma {:induction false} DropEmptyKeepsEntries(xs: seq<string>)
    requires forall i :: 0 <= i < |xs| ==> xs[i] != ""
    ensures DropEmpty(xs) == xs
    decreases |xs|
  {
    if |xs| > 0 {
      DropEmptyKeepsEntries(xs[1..]);
    }
  }

  /** Round trip: a list of entries shown as ", "-joined text parses back to
      the same list, in the same order. */
  lemma ParseFormat(xs: seq<string>)
    requires AllEntries(xs)
    ensures Parse(Format(xs)) == xs
  {
    if |xs| == 0 {
      assert Split(Format(xs), ',') == [""];
      assert TrimAll([""]) == [""];
    } else {
      SplitFormatted(xs);
      var pieces := [xs[0]] + Spaced(xs[1..]);
      forall i | 0 <= i < |xs|
        ensures TrimAll(pieces)[i] == xs[i]
      {
        if i > 0 {
          assert pieces[i] == " " + xs[i];
          TrimLeadingSpace(xs[i]);
        }
      }
      assert TrimAll(pieces) == xs;
      DropEmptyKeepsEntries(xs);
    }
  }

  /** Parsing is a normal form: editing a saved list without changes saves
      the same list again. */
  lemma ParseNormalizes(text: string)
    ensures Parse(Format(Parse(text))) == Parse(text)
  {
    ParseFormat(Parse(text));
  }

  lemma TrimAllConcat(xs: seq<string>, ys: seq<string>)
    ensures TrimAll(xs + ys) == TrimAll(xs) + TrimAll(ys)
  {
    var zs := xs + ys;
    var l, a, b := TrimAll(zs), TrimAll(xs), TrimAll(ys);
    assert |l| == |a| + |b|;
    forall i | 0 <= i < |l|
      ensures l[i] == (a + b)[i]
    {
      var t := Trim(zs[i]);
      assert l[i] == t;
      if i < |xs| {
        assert zs[i] == xs[i];
        assert a[i] == t;
      } else {
        assert zs[i] == ys[i - |xs|];
        assert b[i - |xs|] == t;
      }
    }
    assert l == a + b;
  }

  lemma {:induction false} DropEmptyConcat(xs: seq<string>, ys: seq<string>)
    ensures DropEmpty(xs + ys) == DropEmpty(xs) + DropEmpty(ys)
    decreases |xs|
  {
    if |xs| == 0 {
      assert xs + ys == ys;
    } else {
      assert (xs + ys)[0] == xs[0];
      assert (xs + ys)[1..] == xs[1..] + ys;
      DropEmptyConcat(xs[1..], ys);
      assert [xs[0]] + (DropEmpty(xs[1..]) + DropEmpty(ys)) == ([xs[0]] + DropEmpty(xs[1..])) + DropEmpty(ys);
    }
  }

  /** The entries of text with a comma are the entries before it followed
      by the entries after it: every comma separates, and the typed order is
      kept. With the comma-free case of `Parse`, this determines `Parse` on
      every text. */
  lemma ParseConcat(a: string, b: string)
    ensures Parse(a + "," + b) == Parse(a) + Parse(b)
  {
    SplitConcat(a, ',', b);
    TrimAllConcat(Split(a, ','), Split(b, ','));
    DropEmptyConcat(TrimAll(Split(a, ',')), TrimAll(Split(b, ',')));
  }
}
