/** Note names, known only by whether two of them are equal. */
module Names {
  type Name(00, ==, !new)
}
