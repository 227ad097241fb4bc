/**
 * The JSON documents the pipeline keeps under its data directory, as one map
 * from file name to document. A document records when it was last written and
 * what it parses to; `None` stands for a file that does not parse.
 */
module Files {
  import opened Wrappers

  datatype Doc<V> = Doc(mtime: int, body: Option<V>)

  class Store<V> {
    var docs: map<string, Doc<V>>

    constructor (initial: map<string, Doc<V>>)
      ensures docs == initial
    {
      docs := initial;
    }
  }

  /** `JSON.parse(readFile(name))` inside a `try`: a missing or unparsable file reads as `None`. */
  function ReadJson<V>(docs: map<string, Doc<V>>, name: string): (r: Option<V>)
    ensures r.Some? <==> name in docs && docs[name].body.Some?
    ensures r.Some? ==> r.value == docs[name].body.value
  {
    if name in docs then docs[name].body else None
  }
}
