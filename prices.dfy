/**
 * What the live price feed delivers and what the pages display about it:
 * a parsed WebSocket message, and the transient up/down colour of a price.
 */
module Prices {
  import opened Common

  /** The `"up" | "down" | null` colour state of one price. */
  datatype PriceChange = Up | Down | Neutral

  /**
   * The outcome of `JSON.parse(event.data)`: a parse error, a value whose
   * `typeof` is not "object" (number, string, boolean), `null`, or an object
   * whose own keys map to numeric prices. A JSON array is an object whose
   * keys are its indices written in decimal.
   */
  datatype Message = Unparsable | Scalar | Null | Object(prices: map<string, real>)

  /** `liveData[key]`: `undefined` (None) when the key is absent. */
  function Get(prices: map<string, real>, key: string): (r: Option<real>)
    ensures r.Some? <==> key in prices
    ensures r.Some? ==> r.value == prices[key]
  {
    if key in prices then Some(prices[key]) else None
  }

  /** JavaScript truthiness of a looked-up price: neither `undefined` nor 0. */
  predicate Truthy(p: Option<real>)
  {
    p.Some? && p.value != 0.0
  }
}
