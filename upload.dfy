/**
 * The toast that the upload page (src/pages/Upload.tsx) shows for a message
 * coming back from the CSV upload: a success toast when the message speaks
 * of success or a started campaign, a destructive "Upload Issue" toast when
 * it speaks only of an error or a failure, and a neutral one otherwise. The
 * words are looked for in the lower-cased message.
 */
module Upload {
  import opened Strings

  datatype ToastVariant = Plain | Destructive

  /** The `toast({...})` argument: title, description and variant. */
  datatype Toast = Toast(title: string, description: string, variant: ToastVariant)

  const StartedTitle: string := "Campaign Started! \U{1F680}"
  const IssueTitle: string := "Upload Issue"
  const ProcessingTitle: string := "CSV Processing"

  /** `isError`: the lower-cased message includes "error" or "failed". */
  predicate IsError(message: string) {
    var lower := ToLower(message);
    Includes(lower, "error") || Includes(lower, "failed")
  }

  /** `isSuccess`: the lower-cased message includes "success" or "started". */
  predicate IsSuccess(message: string) {
    var lower := ToLower(message);
    Includes(lower, "success") || Includes(lower, "started")
  }

  /**
   * `handleCsvUpload`: success wins over error, error over the neutral
   * toast; every toast carries the message unchanged as its description.
   */
  function CsvUploadToast(message: string): (t: Toast)
    ensures t.description == message
    ensures t.title == StartedTitle <==> IsSuccess(message)
    ensures t.title == IssueTitle <==> !IsSuccess(message) && IsError(message)
    ensures t.title == ProcessingTitle <==> !IsSuccess(message) && !IsError(message)
    ensures t.variant == Destructive <==> t.title == IssueTitle
  {
    if IsSuccess(message) then Toast(StartedTitle, message, Plain)
    else if IsError(message) then Toast(IssueTitle, message, Destructive)
    else Toast(ProcessingTitle, message, Plain)
  }

  /** Lower-casing twice is lower-casing once. */
  lemma ToLowerIdempotent(s: string)
    ensures ToLower(ToLower(s)) == ToLower(s)
  {
  }

  /**
   * The classification ignores case: two messages that agree up to the
   * case of their letters get toasts of the same title and variant.
   */
  lemma ClassificationIgnoresCase(m: string, n: string)
    requires ToLower(m) == ToLower(n)
    ensures CsvUploadToast(m).title == CsvUploadToast(n).title
    ensures CsvUploadToast(m).variant == CsvUploadToast(n).variant
  {
  }

  /** In particular a message and its lower-cased form are classified alike. */
  lemma LowerCasedMessageAlike(m: string)
    ensures CsvUploadToast(ToLower(m)).title == CsvUploadToast(m).title
  {
    ToLowerIdempotent(m);
    ClassificationIgnoresCase(ToLower(m), m);
  }

  /** The piece of `m` at `j` reads `word` when lower-cased. */
  predicate ReadsAt(m: string, j: nat, word: string) {
    j + |word| <= |m| && ToLower(m[j..j + |word|]) == word
  }

  /** Lower-casing commutes with taking a piece. */
  lemma ToLowerSlice(s: string, i: nat, j: nat)
    requires i <= j <= |s|
    ensures ToLower(s)[i..j] == ToLower(s[i..j])
  {
  }

  /**
   * A piece of the message that reads "success" or "started" in any mix of
   * cases gives the success toast, whatever else the message says.
   */
  lemma SuccessWordInAnyCase(m: string, j: nat, word: string)
    requires word == "success" || word == "started"
    requires ReadsAt(m, j, word)
    ensures CsvUploadToast(m).title == StartedTitle
    ensures CsvUploadToast(m).variant == Plain
  {
    ToLowerSlice(m, j, j + |word|);
    assert OccursAt(word, ToLower(m), j);
    IncludesIff(ToLower(m), word);
  }

  /**
   * A piece reading "error" or "failed" in any case gives the destructive
   * toast unless the message also mentions success.
   */
  lemma ErrorWordInAnyCase(m: string, j: nat, word: string)
    requires word == "error" || word == "failed"
    requires ReadsAt(m, j, word)
    requires !IsSuccess(m)
    ensures CsvUploadToast(m).title == IssueTitle
    ensures CsvUploadToast(m).variant == Destructive
  {
    ToLowerSlice(m, j, j + |word|);
    assert OccursAt(word, ToLower(m), j);
    IncludesIff(ToLower(m), word);
  }

  /** A word that no piece of the message reads, in any case, is not in the lower-cased message. */
  lemma WordAbsentInAnyCase(m: string, w: string)
    requires forall j: nat :: !ReadsAt(m, j, w)
    ensures !Includes(ToLower(m), w)
  {
    if Includes(ToLower(m), w) {
      var k := IndexOf(ToLower(m), w).value;
      ToLowerSlice(m, k, k + |w|);
      assert ReadsAt(m, k, w);
    }
  }

  /** A message with none of the four words, in any case, gets the neutral toast. */
  lemma NoWordNeutral(m: string)
    requires forall j: nat :: !ReadsAt(m, j, "success") && !ReadsAt(m, j, "started")
    requires forall j: nat :: !ReadsAt(m, j, "error") && !ReadsAt(m, j, "failed")
    ensures CsvUploadToast(m).title == ProcessingTitle
    ensures CsvUploadToast(m).variant == Plain
  {
    WordAbsentInAnyCase(m, "success");
    WordAbsentInAnyCase(m, "started");
    WordAbsentInAnyCase(m, "error");
    WordAbsentInAnyCase(m, "failed");
  }
}
