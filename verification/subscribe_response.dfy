/** The JSON body every subscribe outcome returns, and its three factories
    (TCGHit.Api/Models/SubscribeResponse.cs). */
module SubscribeResponses {
  import opened Wrappers

  /** `alreadySubscribed` is the nullable `bool?` of the source; it is only
      ever set by `AlreadySubscribedResponse`. */
  datatype SubscribeResponse = SubscribeResponse(success: bool, message: string, alreadySubscribed: Option<bool>)

  const DefaultSuccessMessage: string := "Successfully subscribed!"
  const AlreadySubscribedMessage: string := "This email is already subscribed."

  function SuccessResponse(message: string := DefaultSuccessMessage): (r: SubscribeResponse)
    ensures r.success
    ensures r.message == message
    ensures r.alreadySubscribed.None?
  {
    SubscribeResponse(true, message, None)
  }

  function AlreadySubscribedResponse(): (r: SubscribeResponse)
    ensures !r.success
    ensures r.message == AlreadySubscribedMessage
    ensures r.alreadySubscribed == Some(true)
  {
    SubscribeResponse(false, AlreadySubscribedMessage, Some(true))
  }

  function ErrorResponse(message: string): (r: SubscribeResponse)
    ensures !r.success
    ensures r.message == message
    ensures r.alreadySubscribed.None?
  {
    SubscribeResponse(false, message, None)
  }

  /** Which factory built a body, read back from the body alone. */
  datatype ResponseKind = Success | AlreadySubscribed | Error

  function KindOf(r: SubscribeResponse): ResponseKind {
    if r.success then Success
    else if r.alreadySubscribed == Some(true) then AlreadySubscribed
    else Error
  }

  /** A caller can always tell the three factories apart, and recover the
      message each was given: no two factories produce the same body,
      whatever messages they are passed. */
  lemma FactoriesAreDistinguishable(m: string, m': string)
    ensures KindOf(SuccessResponse(m)) == Success
    ensures KindOf(AlreadySubscribedResponse()) == AlreadySubscribed
    ensures KindOf(ErrorResponse(m)) == Error
    ensures SuccessResponse(m) != ErrorResponse(m')
    ensures SuccessResponse(m) != AlreadySubscribedResponse()
    ensures ErrorResponse(m) != AlreadySubscribedResponse()
    ensures SuccessResponse(m) == SuccessResponse(m') <==> m == m'
    ensures ErrorResponse(m) == ErrorResponse(m') <==> m == m'
  {
  }
}
