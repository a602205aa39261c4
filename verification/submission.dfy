/** What `createPoll` checks and sends before any request leaves the page. */
module Submission {
  import opened Text
  import opened PollDraft

  /** The two local failures; each ends the submission before the dialog. */
  datatype ValidationError = TitleRequired | TooFewOptions

  /** The body of the create-poll request: `{ title, options }`. */
  datatype CreateRequest = CreateRequest(title: string, options: seq<string>)

  datatype Validation = Rejected(error: ValidationError) | Accepted(request: CreateRequest)

  /** `options.map(o => o.value.trim())`. */
  function TrimmedValues(opts: seq<DraftOption>): (r: seq<string>)
    ensures |r| == |opts|
    ensures forall k :: 0 <= k < |r| ==> r[k] == Trim(opts[k].value)
  {
    if opts == [] then [] else [Trim(opts[0].value)] + TrimmedValues(opts[1..])
  }

  /** `.filter(s => s !== "")`: no empty text survives and every non-empty one
      does. */
  function DropEmpty(texts: seq<string>): (r: seq<string>)
    ensures |r| <= |texts|
    ensures forall s :: s in r <==> s in texts && s != ""
  {
    if texts == [] then []
    else
      var r := (if texts[0] == "" then [] else [texts[0]]) + DropEmpty(texts[1..]);
      assert forall s :: s in texts <==> s == texts[0] || s in texts[1..];
      r
  }

  /** The option texts the request carries: the trimmed row texts with the
      blank ones left out, so none is longer than the draft and every text is
      non-empty and already trimmed. */
  function Normalised(opts: seq<DraftOption>): (r: seq<string>)
    ensures |r| <= |opts|
    ensures forall s :: s in r ==> s != "" && Trim(s) == s
  {
    var r := DropEmpty(TrimmedValues(opts));
    forall s | s in r ensures Trim(s) == s {
      var k :| 0 <= k < |opts| && TrimmedValues(opts)[k] == s;
      TrimIdempotent(opts[k].value);
    }
    r
  }

  lemma {:induction false} DropEmptyConcat(a: seq<string>, b: seq<string>)
    ensures DropEmpty(a + b) == DropEmpty(a) + DropEmpty(b)
  {
    if a == [] {
      assert a + b == b;
    } else {
      assert (a + b)[0] == a[0] && (a + b)[1..] == a[1..] + b;
      DropEmptyConcat(a[1..], b);
    }
  }

  lemma {:induction false} TrimmedValuesConcat(a: seq<DraftOption>, b: seq<DraftOption>)
    ensures TrimmedValues(a + b) == TrimmedValues(a) + TrimmedValues(b)
  {
    if a == [] {
      assert a + b == b;
    } else {
      assert (a + b)[0] == a[0] && (a + b)[1..] == a[1..] + b;
      TrimmedValuesConcat(a[1..], b);
    }
  }

  /** Normalisation works row by row, in draft order. */
  lemma NormalisedConcat(a: seq<DraftOption>, b: seq<DraftOption>)
    ensures Normalised(a + b) == Normalised(a) + Normalised(b)
  {
    TrimmedValuesConcat(a, b);
    DropEmptyConcat(TrimmedValues(a), TrimmedValues(b));
  }

  /** A row left blank, or holding only whitespace, contributes nothing. */
  lemma NormalisedBlankRow(row: DraftOption)
    ensures Normalised([row]) == if AllWhitespace(row.value) then [] else [Trim(row.value)]
  {
    TrimEmptyIff(row.value);
    assert TrimmedValues([row]) == [Trim(row.value)];
    assert [Trim(row.value)][1..] == [];
  }

  /** Adding a blank row never changes what would be sent. */
  lemma NormalisedAppended(opts: seq<DraftOption>, newId: Id)
    ensures Normalised(Appended(opts, newId)) == Normalised(opts)
  {
    NormalisedConcat(opts, [DraftOption(newId, "")]);
    NormalisedBlankRow(DraftOption(newId, ""));
  }

  /** A freshly reset draft holds no usable option. */
  lemma NormalisedBlank(idA: Id, idB: Id)
    ensures Normalised(Blank(idA, idB)) == []
  {
    NormalisedConcat([DraftOption(idA, "")], [DraftOption(idB, "")]);
    NormalisedBlankRow(DraftOption(idA, ""));
    NormalisedBlankRow(DraftOption(idB, ""));
  }

  /** The checks `createPoll` makes before the confirmation dialog: the title
      first, then the number of usable options. An accepted request carries the
      trimmed, non-empty title and at least two normalised options. */
  function Validate(title: string, opts: seq<DraftOption>): (r: Validation)
    ensures r == Rejected(TitleRequired) <==> AllWhitespace(title)
    ensures r == Rejected(TooFewOptions) <==> !AllWhitespace(title) && |Normalised(opts)| < 2
    ensures r.Accepted? ==>
      && r.request.title == Trim(title) && r.request.title != ""
      && r.request.options == Normalised(opts) && |r.request.options| >= 2
  {
    TrimEmptyIff(title);
    if Trim(title) == "" then Rejected(TitleRequired)
    else
      var filtered := Normalised(opts);
      if |filtered| < 2 then Rejected(TooFewOptions)
      else Accepted(CreateRequest(Trim(title), filtered))
  }

  /** The number of rows holding some visible text. */
  function Filled(opts: seq<DraftOption>): nat {
    if opts == [] then 0
    else (if AllWhitespace(opts[0].value) then 0 else 1) + Filled(opts[1..])
  }

  /** One option text is sent per row that holds visible text. */
  lemma {:induction false} NormalisedLength(opts: seq<DraftOption>)
    ensures |Normalised(opts)| == Filled(opts)
  {
    if opts != [] {
      assert opts == [opts[0]] + opts[1..];
      NormalisedConcat([opts[0]], opts[1..]);
      NormalisedBlankRow(opts[0]);
      NormalisedLength(opts[1..]);
    }
  }

  /** Validation in terms of the draft alone: it passes exactly when the title
      holds visible text and at least two rows do. */
  lemma ValidateAcceptsIff(title: string, opts: seq<DraftOption>)
    ensures Validate(title, opts).Accepted? <==> !AllWhitespace(title) && Filled(opts) >= 2
  {
    NormalisedLength(opts);
  }

  /** Adding a blank row never changes the outcome of validation. */
  lemma ValidateAppended(title: string, opts: seq<DraftOption>, newId: Id)
    ensures Validate(title, Appended(opts, newId)) == Validate(title, opts)
  {
    NormalisedAppended(opts, newId);
  }

  /** Text that is non-empty and has no whitespace at either end, as a user
      types "Lunch?" or "Pizza". */
  predicate Clean(s: string) {
    s != [] && !IsWhitespace(s[0]) && !IsWhitespace(s[|s| - 1])
  }

  /** One row with visible text and two rows that hold nothing visible, as
      with options "A", "" and " ", leave a single option and are refused. */
  lemma RejectsOneUsableOption(title: string, a: DraftOption, b: DraftOption, c: DraftOption)
    requires !AllWhitespace(title) && Clean(a.value)
    requires AllWhitespace(b.value) && AllWhitespace(c.value)
    ensures Normalised([a, b, c]) == [a.value]
    ensures Validate(title, [a, b, c]) == Rejected(TooFewOptions)
  {
    assert Normalised([b, c]) == [] by {
      NormalisedBlankRow(b);
      NormalisedBlankRow(c);
      assert [b] + [c] == [b, c];
      NormalisedConcat([b], [c]);
    }
    assert Normalised([a]) == [a.value] by {
      TrimUnchanged(a.value);
      NormalisedBlankRow(a);
    }
    assert [a] + [b, c] == [a, b, c];
    NormalisedConcat([a], [b, c]);
  }

  /** Two rows with clean texts are sent as they are, in order. */
  lemma NormalisedTwoClean(a: DraftOption, b: DraftOption)
    requires Clean(a.value) && Clean(b.value)
    ensures Normalised([a, b]) == [a.value, b.value]
  {
    assert Normalised([a]) == [a.value] by {
      TrimUnchanged(a.value);
      NormalisedBlankRow(a);
    }
    assert Normalised([b]) == [b.value] by {
      TrimUnchanged(b.value);
      NormalisedBlankRow(b);
    }
    assert [a] + [b] == [a, b];
    NormalisedConcat([a], [b]);
  }

  /** A clean title with two clean options, as "Lunch?" with "Pizza" and
      "Sushi", is sent exactly as typed. */
  lemma AcceptsTwoCleanOptions(title: string, a: DraftOption, b: DraftOption)
    requires Clean(title) && Clean(a.value) && Clean(b.value)
    ensures Validate(title, [a, b]) == Accepted(CreateRequest(title, [a.value, b.value]))
  {
    NormalisedTwoClean(a, b);
    TrimUnchanged(title);
  }
}
