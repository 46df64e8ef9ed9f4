/** The new-comment form (client/src/components/AddCommentForm.tsx): two text
    fields edited in place, a validity test that ignores surrounding
    whitespace, a reset, and the payload a submission hands to the page. */
module AddCommentForm {
  import opened Threads

  /** The code points ECMAScript's `trim` removes: WhiteSpace (tab, vertical
      tab, form feed, space, no-break space, byte order mark and the space
      separators) and LineTerminator (line feed, carriage return, line and
      paragraph separators). */
  predicate IsWhiteSpace(c: char) {
    c == '\t' || c == '\n' || c == '\U{B}' || c == '\U{C}' || c == '\r' || c == ' ' ||
    c == '\U{A0}' || c == '\U{1680}' || ('\U{2000}' <= c <= '\U{200A}') ||
    c == '\U{2028}' || c == '\U{2029}' || c == '\U{202F}' || c == '\U{205F}' ||
    c == '\U{3000}' || c == '\U{FEFF}'
  }

  /** `s` holds some character that `trim` keeps. */
  predicate HasVisible(s: string) {
    exists i :: 0 <= i < |s| && !IsWhiteSpace(s[i])
  }

  /** `trim` at the front: drops the leading whitespace. */
  function TrimStart(s: string): (r: string)
    ensures |r| <= |s| && r == s[|s| - |r|..]
    ensures forall i :: 0 <= i < |s| - |r| ==> IsWhiteSpace(s[i])
    ensures r == [] || !IsWhiteSpace(r[0])
  {
    if s != [] && IsWhiteSpace(s[0]) then TrimStart(s[1..]) else s
  }

  /** `trim` at the back: drops the trailing whitespace. */
  function TrimEnd(s: string): (r: string)
    ensures |r| <= |s| && r == s[..|r|]
    ensures forall i :: |r| <= i < |s| ==> IsWhiteSpace(s[i])
    ensures r == [] || !IsWhiteSpace(r[|r| - 1])
  {
    if s != [] && IsWhiteSpace(s[|s| - 1]) then
      var r := TrimEnd(s[..|s| - 1]);
      assert forall i :: |r| <= i < |s| - 1 ==> s[i] == s[..|s| - 1][i];
      r
    else s
  }

  /** `r` is the stretch of `s` starting at `k`, with only whitespace before
      and after it. */
  predicate StretchBetweenWhiteSpace(s: string, k: int, r: string) {
    0 <= k <= |s| - |r| && r == s[k..k + |r|] &&
    (forall i :: 0 <= i < k ==> IsWhiteSpace(s[i])) &&
    (forall i :: k + |r| <= i < |s| ==> IsWhiteSpace(s[i]))
  }

  /** `s.trim()`: the stretch of `s` left between its leading and its
      trailing whitespace, which neither starts nor ends with whitespace. */
  function Trim(s: string): (r: string)
    ensures exists k :: StretchBetweenWhiteSpace(s, k, r)
    ensures r == [] || (!IsWhiteSpace(r[0]) && !IsWhiteSpace(r[|r| - 1]))
  {
    var t := TrimStart(s);
    var r := TrimEnd(t);
    var k := |s| - |t|;
    assert r == s[k..k + |r|];
    assert forall i :: k + |r| <= i < |s| ==> s[i] == t[i - k];
    assert StretchBetweenWhiteSpace(s, k, r);
    r
  }

  /** `trim` leaves nothing exactly when every character is whitespace. */
  lemma TrimEmptyIffBlank(s: string)
    ensures Trim(s) == [] <==> !HasVisible(s)
  {
    var t := TrimStart(s);
    var k := |s| - |t|;
    if HasVisible(s) {
      var i :| 0 <= i < |s| && !IsWhiteSpace(s[i]);
      assert s[i] == t[i - k];
    }
  }

  /** The form's own state: the two controlled fields. */
  class Form {
    var author: string
    var body: string

    /** Both fields start empty. */
    constructor ()
      ensures author == "" && body == ""
    {
      author := "";
      body := "";
    }

    /** `isFormValid`: both fields hold something besides whitespace. */
    predicate IsValid()
      reads this
      ensures IsValid() <==> HasVisible(author) && HasVisible(body)
    {
      TrimEmptyIffBlank(author);
      TrimEmptyIffBlank(body);
      Trim(author) != [] && Trim(body) != []
    }

    /** The submit button's `disabled` attribute. */
    predicate SubmitDisabled()
      reads this
      ensures SubmitDisabled() <==> !HasVisible(author) || !HasVisible(body)
    {
      !IsValid()
    }

    /** The author input's `onChange`: the field becomes the typed value. */
    method ChangeAuthor(value: string)
      modifies this
      ensures author == value && body == old(body)
    {
      author := value;
    }

    /** The body textarea's `onChange`: the field becomes the typed value. */
    method ChangeBody(value: string)
      modifies this
      ensures body == value && author == old(author)
    {
      body := value;
    }

    /** `handleReset`: both fields emptied, which leaves the form invalid. */
    method Reset()
      modifies this
      ensures author == "" && body == ""
      ensures !IsValid() && SubmitDisabled()
    {
      author := "";
      body := "";
    }

    /** `handleSubmit`: the fields as typed, untrimmed and not re-validated,
        become the payload; the reset travels along as the callback. */
    method Submit() returns (payload: NewComment)
      ensures payload.author == author && payload.body == body
    {
      payload := NewComment(author, body);
    }
  }
}
