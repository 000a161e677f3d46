/** The two byte streams of one RPC connection, as logs of gob values.
    A stream is append-only; the reader keeps its own position in it. */
module RpcWire {
  /** Any encoded argument or reply. */
  type Value = string

  /** The body of every error response: the empty struct of server.go. */
  const INVALID_REQUEST: Value := ""

  datatype Header = Header(serviceMethod: string, seqNo: nat, error: string)

  datatype Item = HeaderItem(header: Header) | BodyItem(body: Value)

  /** `taken` items of `log` have been decoded by the reader. Once `broken`, nothing more gets through. */
  datatype Wire = Wire(log: seq<Item>, taken: nat, broken: bool)
  {
    predicate Available() {
      taken < |log|
    }

    /** Encoding one value and flushing it. The flush error is dropped by the codec, so the value may be
        lost without the writer noticing; the buffered writer then refuses everything that follows. */
    function Put(x: Item, lost: bool): Wire {
      if broken || lost then this.(broken := true) else this.(log := log + [x])
    }

    function Take(): Wire {
      this.(taken := taken + 1)
    }
  }

  /** Headers and bodies alternate, starting with a header. */
  ghost predicate Alternates(log: seq<Item>) {
    && (forall i :: 0 <= i < |log| && i % 2 == 0 ==> log[i].HeaderItem?)
    && (forall i :: 0 <= i < |log| && i % 2 == 1 ==> log[i].BodyItem?)
  }

  /** No two headers of the stream carry the same sequence number. */
  ghost predicate DistinctHeaders(log: seq<Item>)
    requires Alternates(log)
  {
    forall i, j :: 0 <= i < j < |log| && i % 2 == 0 && j % 2 == 0 ==>
      log[i].header.seqNo != log[j].header.seqNo
  }
}
