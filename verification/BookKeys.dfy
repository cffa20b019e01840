/** The account's two books (src/books/bookKeys.ts). */
module BookKeys {
  datatype BookKey = Pluto | Manual

  function Other(book: BookKey): BookKey {
    if book == Pluto then Manual else Pluto
  }
}
