/** The records shared by the chat widget, its completion service and the catalog (types.ts). */
module Types {

  /** An optional value, for a lookup that may miss or a field that may be absent. */
  datatype Option<+T> = None | Some(value: T)

  /** Prices are kept as a whole number of cents, so every catalog price is exact and non-negative. */
  type Cents = nat

  /** A catalog entry; immutable for the life of the page. */
  datatype Product = Product(
    id: string,
    name: string,
    description: string,
    tags: seq<string>,
    imageUrl: string,
    price: Cents)

  /** Who wrote a chat message. */
  datatype MessageRole = User | Assistant

  /** One entry of the chat log. The client-side id and timestamp are not modelled. */
  datatype ChatMessage = ChatMessage(role: MessageRole, text: string)
}
