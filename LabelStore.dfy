/** The crawler's write session over the labels table, seen as a log of operations: those
    committed, and those staged in the transaction that is open. */
module LabelStore {
  import opened WorkList
  import opened Fetcher

  /** What `metadata_to_label` builds for one token: the blockchain tag, the token's record
      and the fetched metadata. The crawl timestamp is not modelled. */
  datatype Label = Label(tag: string, token: TokenUri, metadata: Json)

  /** One operation on the labels table: inserting a label, or `clean_labels_from_db` for one
      (blockchain, address) scope. What the clean-up deletes is not modelled. */
  datatype Event = Insert(row: Label) | Clean(tag: string, address: Address)

  /** The operations committed so far, and those staged in the open transaction. */
  datatype Store = Store(durable: seq<Event>, pending: seq<Event>)

  /** The write session `db_session`. */
  class WriteSession {
    var durable: seq<Event>
    var pending: seq<Event>

    function State(): Store
      reads this
    {
      Store(durable, pending)
    }

    /** A fresh session: nothing committed by it, no transaction open. */
    constructor ()
      ensures State() == Store([], [])
    {
      durable, pending := [], [];
    }

    /** `commit`: everything staged becomes durable. */
    method Commit()
      modifies this
      ensures durable == old(durable) + old(pending) && pending == []
    {
      durable, pending := durable + pending, [];
    }

    /** `rollback`: everything staged is discarded. */
    method Rollback()
      modifies this
      ensures durable == old(durable) && pending == []
    {
      pending := [];
    }

    /** `add`: stage one label. */
    method Add(row: Label)
      modifies this
      ensures durable == old(durable) && pending == old(pending) + [Insert(row)]
    {
      pending := pending + [Insert(row)];
    }

    /** `clean_labels_from_db` run on this session: staged like any other statement. */
    method CleanLabels(tag: string, address: Address)
      modifies this
      ensures durable == old(durable) && pending == old(pending) + [Clean(tag, address)]
    {
      pending := pending + [Clean(tag, address)];
    }
  }
}
