/** The backing file, seen through the JSON parser: what `readAll` makes of its
    text, and what `writeAll` leaves in it. */
module ItemFile {
  import opened ItemTypes

  /** The outcome of parsing a non-empty file text as JSON. */
  datatype Parsed = Malformed | NotAnArray | ArrayOf(elements: seq<Item>)

  /** The text of the backing file: empty, or non-empty with a parse outcome. */
  datatype StoredText = Blank | Text(parsed: Parsed)

  /** The corruption-tolerant read: an empty file stands for "[]", and any
      content that is not a JSON array reads as the empty list. */
  function ReadAll(f: StoredText): (r: seq<Item>)
    ensures f == Blank ==> r == []
    ensures f.Text? && !f.parsed.ArrayOf? ==> r == []
    ensures f.Text? && f.parsed.ArrayOf? ==> r == f.parsed.elements
  {
    match f
    case Blank => []
    case Text(Malformed) => []
    case Text(NotAnArray) => []
    case Text(ArrayOf(items)) => items
  }

  /** The file after the whole list has been serialised into it. */
  function Written(items: seq<Item>): StoredText
  {
    Text(ArrayOf(items))
  }

  /** Reading back what was written yields the same list, in the same order.
      This is the JSON round trip the model assumes: it holds by the definition
      of `Written`, not by any property of the parser. */
  lemma ReadAfterWrite(items: seq<Item>)
    ensures ReadAll(Written(items)) == items
  {
  }
}
