/** Items through a text and back (src/cJSON/cJSON.c, lines 1110 to 1183 and 1202 to 1265). */
module JsonItems {
  import opened Bytes
  import opened JsonText
  import opened JsonStrings
  import opened JsonParser
  import opened JsonRoundTrip
  import opened JsonList
  import opened JsonReader
  import opened JsonPrinter

  /** Printing items and parsing the text makes new items with the same value, in order at
      every level, exactly if the value is nested no deeper than the limit. */
  method PrintAndParse(item: Item, ghost n: Node, ghost v: Json, style: Style, requireNul: bool)
    returns (copy: Item?, ghost m: Node)
    requires n.item == item && Valid(n) && Denotes(n, v) && Proper(v)
    requires style.ptrSize > 0 && AllPrintable(style.ptrSize, v)
    ensures copy != null ==> m.item == copy && fresh(Items(m)) && Valid(m) && Denotes(m, v)
    ensures style.ptrSize >= 6 && |Text(style, v, 0)| + 4 < INT_MAX ==>
      (copy != null <==> Height(v) <= NESTING_LIMIT)
  {
    hide Text, ParseText, Valid, Denotes, Proper, AllPrintable, Height;
    var text := Print(item, n, v, style);
    if text.None? {
      return null, n;
    }
    ParseOfPrint(style, v, requireNul);
    var r;
    r, copy, m := ParseJson(text.value, requireNul);
  }
}
