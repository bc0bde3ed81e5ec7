/** Selection of the WebSocket error effect
    (packages/websockets/src/error/ws-error.provider.ts). */
module WsErrorProvider {
  import opened Wrappers
  import Routes

  type TransformerId = nat

  /** The default WebSocket `error$`, or an effect the caller supplied. */
  datatype WsErrorEffect = DefaultWsError | Supplied(effect: Routes.EffectId)

  /** `provideErrorEffect(errorEffect, eventTransformer)`: the default only
      when neither an effect nor a transformer is given (`null` and
      `undefined` are both `None`); otherwise the argument as given, which is
      `undefined` when only a transformer was passed. */
  function ProvideErrorEffect(errorEffect: Option<Routes.EffectId>, transformer: Option<TransformerId>): (r: Option<WsErrorEffect>)
    ensures errorEffect.Some? ==> r == Some(Supplied(errorEffect.value))
    ensures errorEffect.None? && transformer.None? ==> r == Some(DefaultWsError)
    ensures errorEffect.None? && transformer.Some? ==> r.None?
  {
    if errorEffect.None? && transformer.None? then Some(DefaultWsError)
    else match errorEffect
      case Some(e) => Some(Supplied(e))
      case None => None
  }

  /** The result is the default or the argument, never anything else; and the
      default is chosen only when no effect was supplied. */
  lemma ProvidesDefaultOrArgument(errorEffect: Option<Routes.EffectId>, transformer: Option<TransformerId>)
    ensures var r := ProvideErrorEffect(errorEffect, transformer);
            || r == Some(DefaultWsError)
            || r == (match errorEffect case Some(e) => Some(Supplied(e)) case None => None)
    ensures ProvideErrorEffect(errorEffect, transformer) == Some(DefaultWsError) ==> errorEffect.None?
  {
  }
}
