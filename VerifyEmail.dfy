/** The email-verification page (`VerifyEmailPage` in
    `src/pages/auth/verify-email.tsx`): a `status` and a `message` cell that
    its effect sets, first when it reads the token from the link and then
    when the verification request settles. */
module VerifyEmail {
  import opened Wrappers
  import opened AuthService

  /** `'idle' | 'loading' | 'success' | 'error'`: `Verified` is the
      source's `'success'` and `Failed` its `'error'`. */
  datatype Status = Idle | Loading | Verified | Failed

  const MissingTokenMessage := "Invalid or missing verification token."
  const VerifiedMessage := "Your email has been verified! You can now log in."
  const FallbackMessage := "Verification failed. Please try again."

  /** The `token` query parameter counts as present only when non-empty. */
  predicate HasToken(token: Option<string>) {
    token.Some? && token.value != []
  }

  /** The message shown for a rejected request. */
  function RejectionMessage(reason: Rejection): (m: string)
    ensures reason.ErrorObject? ==> m == reason.message
    ensures reason.NonError? ==> m == FallbackMessage
  {
    match reason
    case ErrorObject(message) => message
    case NonError => FallbackMessage
  }

  class VerifyEmailPage {
    var status: Status
    var message: string

    constructor ()
      ensures status == Idle && message == []
    {
      status := Idle;
      message := [];
    }

    /** The effect's synchronous part. Without a token the page shows the
        missing-token error and sends nothing; with one it starts loading and
        returns the token the verification request is sent with. */
    method Start(token: Option<string>) returns (request: Option<string>)
      modifies this
      ensures request.Some? <==> HasToken(token)
      ensures HasToken(token) ==> request == token && status == Loading && message == old(message)
      ensures !HasToken(token) ==> status == Failed && message == MissingTokenMessage
    {
      if !HasToken(token) {
        status := Failed;
        message := MissingTokenMessage;
        request := None;
        return;
      }
      status := Loading;
      request := token;
    }

    /** The request's callbacks. They set both cells whatever the status is,
        so a reply that arrives after the effect ran again still overwrites
        what that run set. */
    method Settle(reply: Reply<()>)
      modifies this
      ensures reply.Resolved? && reply.response.success ==>
                status == Verified && message == VerifiedMessage
      ensures reply.Resolved? && !reply.response.success ==>
                status == Failed && message == reply.response.responseDesc
      ensures reply.Rejected? ==> status == Failed && message == RejectionMessage(reply.reason)
    {
      match reply
      case Resolved(response) =>
        if response.success {
          status := Verified;
          message := VerifiedMessage;
        } else {
          status := Failed;
          message := response.responseDesc;
        }
      case Rejected(reason) =>
        status := Failed;
        message := RejectionMessage(reason);
    }
  }
}
