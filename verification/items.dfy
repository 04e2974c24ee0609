/**
 * One inventory record (the Java class InventoryItem): a name, a code,
 * a quantity and a price. The record is a value here; the datatype constructor
 * `Item` plays the part of the four-argument Java constructor and the field
 * `code` that of `getCode`.
 */
module Items {

  /** Java's `int`: quantities are read with Integer.parseInt, so they are 32-bit. */
  newtype int32 = x: int | -0x8000_0000 <= x < 0x8000_0000

  /**
   * The Java `double` price, kept as its 64 raw IEEE 754 bits. No operation of
   * the store looks inside it; it is only carried along.
   */
  type Price = bv64

  datatype Item = Item(name: string, code: string, quantity: int32, price: Price)
  {
    /** `setQuantity`: the same record with only its quantity replaced. */
    function WithQuantity(q: int32): (r: Item)
      ensures r.quantity == q
      ensures r.name == name && r.code == code && r.price == price
    {
      this.(quantity := q)
    }
  }
}
