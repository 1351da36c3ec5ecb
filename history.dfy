/** The chat_history table and the order in which stream_answer uses it:
    the table is an append-only log of (id, question, answer) records with
    AUTOINCREMENT ids, listed newest first and cleared all at once. */
module History {
  import opened Chunking

  /** One row of chat_history. */
  datatype Record = Record(id: nat, question: string, answer: string)

  /** What the retrieval-and-generation chain produced for a query: the
      answer text, or the error it raised (retriever, embedding or model). */
  datatype Outcome = Answered(answer: string) | Failed(reason: string)

  /** What stream_answer does that an observer can see, in order. */
  datatype Event = Stored(record: Record) | Emitted(chunk: string)

  /** The result of one query: the events of the stream, or the error that
      ended it before anything was stored or sent. */
  datatype Response = Streamed(trace: seq<Event>) | Aborted(reason: string)

  /** The first id AUTOINCREMENT assigns in an empty, never-used table. */
  const FirstId: nat := 1

  class ChatHistory {
    /** The rows of the table, in insertion order. */
    var records: seq<Record>
    /** The id the next insert gets: one more than any id ever assigned. */
    var nextId: nat
    /** Every id assigned so far, including those of cleared rows. */
    ghost var issued: set<nat>

    /** Ids are positive, strictly increasing in insertion order, and all
        assigned ids lie below nextId. */
    ghost predicate Valid()
      reads this
    {
      && FirstId <= nextId
      && (forall k :: 0 <= k < |records| ==> records[k].id in issued)
      && (forall id :: id in issued ==> FirstId <= id < nextId)
      && (forall j, k :: 0 <= j < k < |records| ==> records[j].id < records[k].id)
    }

    /** CREATE TABLE IF NOT EXISTS on a fresh database. */
    constructor ()
      ensures Valid()
      ensures records == [] && nextId == FirstId && issued == {}
    {
      records := [];
      nextId := FirstId;
      issued := {};
    }

    /** INSERT INTO chat_history (question, answer): the new row gets the
        next id, which was never assigned before. */
    method Append(question: string, answer: string) returns (id: nat)
      requires Valid()
      modifies this
      ensures Valid()
      ensures id == old(nextId) && id !in old(issued)
      ensures forall other :: other in old(issued) ==> other < id
      ensures records == old(records) + [Record(id, question, answer)]
      ensures nextId == id + 1 && issued == old(issued) + {id}
      ensures ListAll() == [Record(id, question, answer)] + old(ListAll())
    {
      id := nextId;
      records := records + [Record(id, question, answer)];
      issued := issued + {id};
      nextId := nextId + 1;
      assert forall k :: 0 <= k < |old(records)| ==> records[k] == old(records)[k];
    }

    /** SELECT ... FROM chat_history ORDER BY id DESC: every row, exactly
        once, by strictly decreasing id. */
    function ListAll(): (r: seq<Record>)
      reads this
      requires Valid()
      ensures |r| == |records|
      ensures forall x :: x in r <==> x in records
      ensures forall j, k :: 0 <= j < k < |r| ==> r[j].id > r[k].id
    {
      var rows := records;
      var n := |rows|;
      var r := seq(n, k requires 0 <= k < n => rows[n - 1 - k]);
      assert forall x :: x in rows ==> x in r by {
        forall x | x in rows ensures x in r {
          var k :| 0 <= k < n && rows[k] == x;
          assert r[n - 1 - k] == x;
        }
      }
      r
    }

    /** DELETE FROM chat_history: every row goes; the id counter stays, so
        ids of cleared rows are not handed out again. */
    method ClearAll()
      requires Valid()
      modifies this
      ensures Valid()
      ensures records == [] && ListAll() == []
      ensures nextId == old(nextId) && issued == old(issued)
    {
      records := [];
    }

    /** stream_answer: when the chain produced an answer, store the pair
        first and then emit one chunk per word of the answer; when it
        failed, the error ends the stream with nothing stored or sent. */
    method Query(query: string, outcome: Outcome) returns (response: Response)
      requires Valid()
      modifies this
      ensures Valid()
      ensures outcome.Failed? ==>
        && response == Aborted(outcome.reason)
        && records == old(records) && nextId == old(nextId) && issued == old(issued)
      ensures outcome.Answered? ==>
        && records == old(records) + [Record(old(nextId), query, outcome.answer)]
        && ListAll() == [Record(old(nextId), query, outcome.answer)] + old(ListAll())
        && nextId == old(nextId) + 1 && issued == old(issued) + {old(nextId)}
        && response.Streamed?
        && |response.trace| == 1 + |Split(outcome.answer)|
        && response.trace[0] == Stored(Record(old(nextId), query, outcome.answer))
        && (forall k :: 1 <= k < |response.trace| ==>
              response.trace[k] == Emitted(Split(outcome.answer)[k - 1] + " "))
    {
      match outcome
      case Failed(reason) =>
        response := Aborted(reason);
      case Answered(answer) =>
        var id := Append(query, answer);
        var chunks := StreamChunks(answer);
        var emitted := seq(|chunks|, k requires 0 <= k < |chunks| => Emitted(chunks[k]));
        var trace := [Stored(Record(id, query, answer))] + emitted;
        response := Streamed(trace);
    }
  }
}
