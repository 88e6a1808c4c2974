/** The stable key of a collection that came without one, shared by the service and the migration. */
module PaymentIdentity {
  import opened Common
  import opened Text

  function Bar(): Text { Lit("|") }

  /** uuid|courier|provider|amount, the text that is hashed. */
  function Identity(uuid: Text, courier: Option<nat>, provider: Text, amount: int): Text {
    var rider := if courier.None? || courier.value == 0 then [] else Decimal(courier.value);
    uuid + Bar() + rider + Bar() + provider + Bar() + Integer(amount)
  }

  /** `hash` stands for the hexadecimal SHA-256 digest; nothing below depends on which function it is. */
  function ManualKey(hash: Text -> Text, uuid: Text, courier: Option<nat>, provider: Text, amount: int): (key: Text)
    ensures key != []
  {
    Lit("manual:") + hash(Identity(uuid, courier, provider, amount))
  }
}
