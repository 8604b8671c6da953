/**
 * The append-only writer of the crawl's raw output: one serialized record per
 * line, in call order.  The serializer (`orjson.dumps`) is a parameter.
 */
module WriteJsonl {
  import opened Jsonl

  class JsonlWriter {
    /** Destination file. */
    const path: string
    /** The record serializer. */
    const dumps: Row -> string
    /** What the destination file holds. */
    var content: string
    var closed: bool
    /** The serialized records written so far, in call order. */
    ghost var records: seq<string>

    /** The file is exactly the records written so far, each ended by "\n". */
    ghost predicate Valid()
      reads this
    {
      content == JoinLines(records)
    }

    /** Opening the destination with mode "wb" truncates it. */
    constructor(path: string, dumps: Row -> string)
      ensures Valid() && !closed
      ensures content == [] && records == []
      ensures this.path == path && this.dumps == dumps
    {
      this.path := path;
      this.dumps := dumps;
      content := [];
      closed := false;
      records := [];
    }

    /**
     * Appends `dumps(obj)` and one "\n"; earlier content is untouched.  Writing to
     * a closed file raises instead, and changes nothing.
     */
    method WriteOne(obj: Row) returns (ok: bool)
      requires Valid()
      modifies this
      ensures Valid()
      ensures ok == !old(closed) && closed == old(closed)
      ensures ok ==> content == old(content) + dumps(obj) + "\n" && records == old(records) + [dumps(obj)]
      ensures !ok ==> content == old(content) && records == old(records)
    {
      if closed {
        return false;
      }
      JoinLinesAppend(records, dumps(obj));
      content := content + dumps(obj) + "\n";
      records := records + [dumps(obj)];
      return true;
    }

    /** Closing (again, possibly) leaves the content as it is. */
    method Close()
      requires Valid()
      modifies this
      ensures Valid() && closed
      ensures content == old(content) && records == old(records)
    {
      closed := true;
    }
  }
}
