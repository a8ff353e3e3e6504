/**
 * The composer's attachment list and body editing
 * (frontend/components/pages/mail/bulk-mail/mail-composer.tsx): the drop
 * limits, removing one attachment, and appending variables and markdown.
 */
module MailComposer {
  import opened Strings

  /** A dropped browser `File`: only its name and size matter here. */
  datatype DroppedFile = DroppedFile(name: string, size: nat)

  const MaxAttachments: nat := 5
  const MaxFileSize: nat := 5 * 1024 * 1024

  /** `acceptedFiles.filter(file => file.size <= 5MB)`. */
  function ValidFiles(files: seq<DroppedFile>): (r: seq<DroppedFile>)
    ensures |r| <= |files|
    ensures forall i :: 0 <= i < |r| ==> r[i].size <= MaxFileSize
    ensures forall f :: f in r <==> f in files && f.size <= MaxFileSize
    decreases |files|
  {
    if files == [] then []
    else
      var rest := ValidFiles(files[1..]);
      assert files == [files[0]] + files[1..];
      (if files[0].size <= MaxFileSize then [files[0]] else []) + rest
  }

  /** The size filter works piece by piece: it distributes over concatenation, so kept files keep their order and multiplicity. */
  lemma {:induction false} ValidFilesAppend(a: seq<DroppedFile>, b: seq<DroppedFile>)
    ensures ValidFiles(a + b) == ValidFiles(a) + ValidFiles(b)
    decreases |a|
  {
    if a == [] {
      assert a + b == b;
    } else {
      assert (a + b)[1..] == a[1..] + b;
      ValidFilesAppend(a[1..], b);
    }
  }

  /** One file is kept exactly when it is within the size limit. */
  lemma ValidFilesSingle(f: DroppedFile)
    ensures ValidFiles([f]) == if f.size <= MaxFileSize then [f] else []
  {
    assert [f][1..] == [];
  }

  /**
   * `onDrop`: a drop that would take the count (over-size files included)
   * past five is refused and nothing changes; otherwise the files within the
   * size limit are appended in order. The toasts it shows are `DropToasts`.
   */
  function OnDrop(attachments: seq<DroppedFile>, dropped: seq<DroppedFile>): (r: seq<DroppedFile>)
    ensures |attachments| + |dropped| > MaxAttachments ==> r == attachments
    ensures |attachments| + |dropped| <= MaxAttachments ==> r == attachments + ValidFiles(dropped)
  {
    if |attachments| + |dropped| > MaxAttachments then attachments else attachments + ValidFiles(dropped)
  }

  const TooManyFilesMessage: string := "You can only attach up to 5 files."

  function OversizeMessage(name: string): string {
    "File " + name + " exceeds the 5MB size limit."
  }

  /** The filter's toasts: one per over-size file, in drop order. */
  function OversizeToasts(files: seq<DroppedFile>): (r: seq<string>)
    ensures |r| <= |files|
    decreases |files|
  {
    if files == [] then []
    else (if files[0].size <= MaxFileSize then [] else [OversizeMessage(files[0].name)]) + OversizeToasts(files[1..])
  }

  /** Every dropped file is either kept or named in a toast. */
  lemma {:induction false} OversizeToastsCount(files: seq<DroppedFile>)
    ensures |OversizeToasts(files)| + |ValidFiles(files)| == |files|
    decreases |files|
  {
    if files != [] {
      OversizeToastsCount(files[1..]);
    }
  }

  /** The toasts work piece by piece as well. */
  lemma {:induction false} OversizeToastsAppend(a: seq<DroppedFile>, b: seq<DroppedFile>)
    ensures OversizeToasts(a + b) == OversizeToasts(a) + OversizeToasts(b)
    decreases |a|
  {
    if a == [] {
      assert a + b == b;
    } else {
      assert (a + b)[1..] == a[1..] + b;
      OversizeToastsAppend(a[1..], b);
    }
  }

  /** One file raises a toast naming it exactly when it is over the size limit. */
  lemma OversizeToastsSingle(f: DroppedFile)
    ensures OversizeToasts([f]) == if f.size > MaxFileSize then [OversizeMessage(f.name)] else []
  {
    assert [f][1..] == [];
  }

  /** The error toasts `onDrop` shows: the count refusal alone, or one per over-size file. */
  function DropToasts(attachments: seq<DroppedFile>, dropped: seq<DroppedFile>): (r: seq<string>)
    ensures |attachments| + |dropped| > MaxAttachments ==> r == [TooManyFilesMessage]
    ensures |attachments| + |dropped| <= MaxAttachments ==> r == OversizeToasts(dropped)
    ensures r == [] ==> OnDrop(attachments, dropped) == attachments + dropped
  {
    if |attachments| + |dropped| > MaxAttachments then [TooManyFilesMessage]
    else
      assert |ValidFiles(dropped)| == |dropped| ==> ValidFiles(dropped) == dropped by {
        ValidFilesAll(dropped);
      }
      OversizeToastsCount(dropped);
      OversizeToasts(dropped)
  }

  /** A filter that keeps as many files as it was given keeps them all. */
  lemma {:induction false} ValidFilesAll(files: seq<DroppedFile>)
    ensures |ValidFiles(files)| == |files| ==> ValidFiles(files) == files
    decreases |files|
  {
    if files != [] {
      ValidFilesAll(files[1..]);
      assert files == [files[0]] + files[1..];
    }
  }

  /** The list never grows past five files, and every file it gains is within the size limit. */
  lemma OnDropBounds(attachments: seq<DroppedFile>, dropped: seq<DroppedFile>)
    requires |attachments| <= MaxAttachments
    ensures |OnDrop(attachments, dropped)| <= MaxAttachments
    ensures |OnDrop(attachments, dropped)| >= |attachments|
    ensures OnDrop(attachments, dropped)[..|attachments|] == attachments
    ensures forall i :: |attachments| <= i < |OnDrop(attachments, dropped)| ==> OnDrop(attachments, dropped)[i].size <= MaxFileSize
  {
  }

  /** One over-size file in a drop of one is rejected without touching the list. */
  lemma OversizeFileIgnored(attachments: seq<DroppedFile>, f: DroppedFile)
    requires |attachments| < MaxAttachments && f.size > MaxFileSize
    ensures OnDrop(attachments, [f]) == attachments
  {
    assert [f][1..] == [];
  }

  /** Over-size files still count toward the limit: four files plus two over-size ones are refused. */
  lemma OversizeFilesCount(attachments: seq<DroppedFile>, f: DroppedFile, g: DroppedFile)
    requires |attachments| == 4 && f.size > MaxFileSize && g.size > MaxFileSize
    ensures OnDrop(attachments, [f, g]) == attachments
  {
  }

  /** Where `splice(index, 1)` starts: a negative index counts from the end, an index past the end is clamped. */
  function SpliceStart(len: nat, index: int): (k: nat)
    ensures k <= len
    ensures 0 <= index <= len ==> k == index
    ensures index < 0 && len + index >= 0 ==> k == len + index
    ensures index < 0 && len + index < 0 ==> k == 0
    ensures index > len ==> k == len
  {
    if index < 0 then (if len + index < 0 then 0 else len + index) else if index > len then len else index
  }

  /** The list after `splice(index, 1)`: the element at the start position removed, if there is one. */
  function SpliceOne<T>(s: seq<T>, index: int): (r: seq<T>) {
    var k := SpliceStart(|s|, index);
    if k < |s| then s[..k] + s[k + 1..] else s
  }

  /** Removing a valid index drops exactly that file and keeps the others in order. */
  lemma RemoveExactlyOne<T>(s: seq<T>, i: nat)
    requires i < |s|
    ensures |SpliceOne(s, i)| == |s| - 1
    ensures forall j :: 0 <= j < i ==> SpliceOne(s, i)[j] == s[j]
    ensures forall j :: i <= j < |s| - 1 ==> SpliceOne(s, i)[j] == s[j + 1]
    ensures multiset(SpliceOne(s, i)) + multiset{s[i]} == multiset(s)
  {
    assert s == s[..i] + [s[i]] + s[i + 1..];
  }

  /** An index at or past the end removes nothing. */
  lemma RemovePastEnd<T>(s: seq<T>, i: int)
    requires i >= |s|
    ensures SpliceOne(s, i) == s
  {
  }

  /** A list that agrees with `s` before `k` and with `s` shifted by one from `k` on is `s` without its `k`-th element. */
  lemma ShiftedIsRemoval<T>(s: seq<T>, k: nat, r: seq<T>)
    requires k < |s| && |r| == |s| - 1
    requires forall j :: 0 <= j < k ==> r[j] == s[j]
    requires forall j :: k <= j < |r| ==> r[j] == s[j + 1]
    ensures r == s[..k] + s[k + 1..]
  {
  }

  /** `removeAttachment`: copy the list, `splice` the copy in place, publish the copy. */
  method RemoveAttachment(attachments: seq<DroppedFile>, index: int) returns (r: seq<DroppedFile>)
    ensures r == SpliceOne(attachments, index)
  {
    var copy := new DroppedFile[|attachments|](i requires 0 <= i < |attachments| => attachments[i]);
    var len := copy.Length;
    var start := SpliceStart(len, index);
    if start < len {
      var k := start;
      while k < len - 1
        invariant start <= k <= len - 1
        invariant forall j :: 0 <= j < start ==> copy[j] == attachments[j]
        invariant forall j :: start <= j < k ==> copy[j] == attachments[j + 1]
        invariant forall j :: k <= j < len ==> copy[j] == attachments[j]
      {
        copy[k] := copy[k + 1];
        k := k + 1;
      }
      ShiftedIsRemoval(attachments, start, copy[..len - 1]);
      len := len - 1;
    } else {
      assert copy[..] == attachments;
    }
    r := copy[..len];
  }

  /** `insertVariable`: the variable is appended to the body. */
  function InsertVariable(body: string, variable: string): (r: string)
    ensures |r| == |body| + |variable|
    ensures StartsWith(r, body) && r[|body|..] == variable
  {
    body + variable
  }

  const TextSlot: string := "{text}"

  /** `insertMarkdown`: the syntax, with its first `{text}` replaced by the placeholder, is appended to the body. */
  function InsertMarkdown(body: string, syntax: string, placeholder: string): (r: string)
    ensures |r| >= |body| && r[..|body|] == body
  {
    body + ReplaceFirst(syntax, TextSlot, placeholder)
  }

  /** The appended text is the syntax with its first `{text}` filled in; later `{text}`s stay as they are. */
  lemma InsertMarkdownFillsFirstSlot(body: string, syntax: string, placeholder: string)
    ensures Contains(syntax, TextSlot) ==>
      exists i :: 0 <= i && OccursAt(syntax, TextSlot, i)
        && (forall j :: 0 <= j < i ==> !OccursAt(syntax, TextSlot, j))
        && InsertMarkdown(body, syntax, placeholder) == body + syntax[..i] + placeholder + syntax[i + |TextSlot|..]
    ensures !Contains(syntax, TextSlot) ==> InsertMarkdown(body, syntax, placeholder) == body + syntax
  {
    IndexOfIsFirst(syntax, TextSlot);
    var i := IndexOf(syntax, TextSlot);
    var r := InsertMarkdown(body, syntax, placeholder);
    assert r == body + ReplaceFirst(syntax, TextSlot, placeholder);
    if i >= 0 {
      var filled := syntax[..i] + placeholder + syntax[i + |TextSlot|..];
      assert r == body + filled;
      assert body + filled == body + syntax[..i] + placeholder + syntax[i + |TextSlot|..];
    }
  }

  /** An example of `InsertMarkdown`: the bold button appends `**bold text**`. */
  lemma BoldButton(body: string)
    ensures InsertMarkdown(body, "**{text}**", "bold text") == body + "**bold text**"
  {
    var syntax := "**{text}**";
    assert syntax[..|TextSlot|][0] != TextSlot[0];
    assert syntax[1..][..|TextSlot|][0] != TextSlot[0];
    assert StartsWith(syntax[2..], TextSlot);
    assert IndexOf(syntax, TextSlot) == 2;
  }
}
