/** The question box of components/ChatInput.tsx: the text typed so far,
    the submit handler, the state of the send button and the quick-question
    handler (which the component defines but never renders). What is sent is returned rather than handed to a callback. */
module ChatInputBox {
  import opened Types
  import opened Text

  /** What a submit sends: the typed text trimmed, when something is left
      and the box is enabled. */
  function SubmittedText(input: string, disabled: bool): (r: Option<string>)
    ensures r.Some? <==> !disabled && !AllSpace(Js, input)
    ensures r.Some? ==> r.value == Trim(input, Js)
  {
    var t := Trim(input, Js);
    if t != "" && !disabled then Some(t) else None
  }

  /** `disabled || !input.trim()`. */
  function SendButtonDisabled(input: string, disabled: bool): (r: bool)
    ensures r <==> disabled || AllSpace(Js, input)
  {
    disabled || Trim(input, Js) == ""
  }

  /** The send button is disabled exactly when a submit would send
      nothing. */
  lemma ButtonMatchesSubmit(input: string, disabled: bool)
    ensures SendButtonDisabled(input, disabled) <==> SubmittedText(input, disabled).None?
  {
  }

  /** A sent question has no surrounding white space and is not empty, and
      submitting it again would send it unchanged. */
  lemma SubmittedTextIsTrimmed(input: string, disabled: bool)
    requires SubmittedText(input, disabled).Some?
    ensures var q := SubmittedText(input, disabled).value;
      && q != "" && !IsSpace(Js, q[0]) && !IsSpace(Js, q[|q| - 1])
      && SubmittedText(q, disabled) == Some(q)
  {
    var q := Trim(input, Js);
    TrimOfTrimmed(q, Js);
  }

  class ChatInput {
    var input: string
    var disabled: bool

    /** An empty box, enabled or not as the page says. */
    constructor(disabled: bool)
      ensures input == "" && this.disabled == disabled
    {
      input := "";
      this.disabled := disabled;
    }

    /** The `onChange` handler: the box holds what was typed. A disabled
        `<input>` fires no change, so the box must be enabled. */
    method Type(text: string)
      requires !disabled
      modifies this
      ensures input == text && disabled == old(disabled)
    {
      input := text;
    }

    /** A render with a new `disabled` prop (the page's `isLoading`): the
        typed text is state of the box and survives it. */
    method SetDisabled(d: bool)
      modifies this
      ensures disabled == d && input == old(input)
    {
      disabled := d;
    }

    /** `handleSubmit`: sends the trimmed text and clears the box, or, when
        the box is disabled or holds only white space, sends nothing and
        keeps the text. */
    method Submit() returns (sent: Option<string>)
      modifies this
      ensures disabled == old(disabled)
      ensures sent == SubmittedText(old(input), disabled)
      ensures sent.Some? ==> input == ""
      ensures sent.None? ==> input == old(input)
    {
      var t := Trim(input, Js);
      if t != "" && !disabled {
        sent := Some(t);
        input := "";
      } else {
        sent := None;
      }
    }

    /** `handleQuickQuestion`: the question is sent as it is, whether the
        box is disabled or not, and the typed text is kept. The component
        renders no quick-question buttons, so nothing calls it there. */
    method QuickQuestion(question: string) returns (sent: string)
      ensures sent == question
    {
      sent := question;
    }
  }
}
