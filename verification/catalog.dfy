/** The `Product` table, as the views read and write it. */
module Catalog {

  /** A product's primary key, in the same string form the session cart stores it. */
  type ProductId = string

  /** One `Product` row; the price is in integer cents (two decimal places). */
  datatype Product = Product(name: string, price: int, description: string, image: string)

  /** The whole table: primary key to row. */
  type Store = map<ProductId, Product>

  /** Image path a product gets when none is uploaded. */
  const DEFAULT_IMAGE: string := "products/default.jpg"

  /** `name` is a `CharField(max_length=100)`. */
  const MAX_NAME_LENGTH: nat := 100

  /** `price` is a `DecimalField(max_digits=10, decimal_places=2)`: at most 8 digits before the point,
      so the magnitude in cents is below 10^10. */
  const PRICE_BOUND: nat := 10_000_000_000

  /** A row the column declarations admit. */
  predicate FitsColumns(p: Product) {
    |p.name| <= MAX_NAME_LENGTH && -(PRICE_BOUND as int) < p.price < PRICE_BOUND
  }

  /** Every row of the table fits its columns. */
  predicate WellFormed(s: Store) {
    forall k :: k in s ==> FitsColumns(s[k])
  }
}
