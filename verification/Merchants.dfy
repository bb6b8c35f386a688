/** Naming the payee of a transaction (`merchant_name` and `normalise_text`). */
module Merchants {
  /** The two pure functions of a description, about which nothing is assumed. */
  datatype Naming = Naming(merchant: string -> string, fold: string -> string)
}
