/**
 The durable idempotency table of the Provider Gateway, one row per logical turn.

 Every function below is one SQL statement (or one transaction) of the stores, as a function from table to
 table. `TurnStore` is the store object that executes them one after another.
 */
module TurnRecords {
  import opened Prelude

  type Key = string
  type Hash = string
  type HttpStatus = n: int | 100 <= n < 1000 witness 500

  datatype Response = Response(body: string)

  datatype TurnError = TurnError(status: HttpStatus, envelope: string)

  /** What one execution of a turn produced. */
  datatype Outcome = Success(response: Response) | Failure(error: TurnError)

  /** A response protected with a fresh nonce; opening it gives the plaintext back. */
  datatype Sealed = Sealed(nonce: nat, plaintext: Response)

  datatype Status = InProgress | Completed | Expired | Failed

  /** One row with its nullable columns. */
  datatype Row = Row(
    hash: Hash,
    status: Status,
    response: Option<Sealed>,
    expiresAt: Option<int>,
    error: Option<string>,
    errorStatus: Option<HttpStatus>)

  type Table = map<Key, Row>

  /** Which store runs the statements: PostgreSQL guards its final updates, SQLite does not. */
  datatype Backend = Postgres | Sqlite

  const REPLAY_WINDOW_SECONDS: nat := 24 * 60 * 60

  /** The answers of `reserve_turn`. */
  datatype StoredTurn =
    | Reserved
    | Pending
    | Replayable(sealed: Sealed)
    | Lapsed
    | Rejected(error: TurnError)
    | Conflict
    | Corrupt

  /** What the SELECT of `reserve_turn` leads to: an answer, or the follow-up expiry statement. */
  datatype Reading = Answer(stored: StoredTurn) | MustExpire

  function FreshRow(hash: Hash): Row {
    Row(hash, InProgress, None, None, None, None)
  }

  /** INSERT ... ON CONFLICT DO NOTHING. */
  function InsertIfAbsent(t: Table, key: Key, hash: Hash): Table {
    if key in t then t else t[key := FreshRow(hash)]
  }

  /** The branches taken on the selected row. */
  function ReadRow(row: Row, hash: Hash, now: int): Reading {
    if row.hash != hash then Answer(Conflict)
    else match row.status
      case InProgress => Answer(Pending)
      case Completed =>
        if row.expiresAt.Some? && row.expiresAt.value <= now then MustExpire
        else if row.response.Some? then Answer(Replayable(row.response.value))
        else Answer(Corrupt)
      case Expired => Answer(Lapsed)
      case Failed =>
        if row.errorStatus.Some? && row.error.Some?
        then Answer(Rejected(TurnError(row.errorStatus.value, row.error.value)))
        else Answer(Corrupt)
  }

  /** UPDATE ... SET state = 'expired' ... WHERE state = 'completed'. */
  function MarkExpired(t: Table, key: Key): Table {
    if key in t && t[key].status.Completed?
    then t[key := t[key].(status := Expired, response := None)]
    else t
  }

  /** Does the final update of a turn match the row? Only PostgreSQL looks at the state. */
  predicate Matches(backend: Backend, t: Table, key: Key) {
    key in t && (backend.Sqlite? || t[key].status.InProgress?)
  }

  function CompleteRow(backend: Backend, t: Table, key: Key, sealed: Sealed, now: int): Table {
    if Matches(backend, t, key) then
      t[key := t[key].(status := Completed, response := Some(sealed),
                       expiresAt := Some(SaturatingAdd(now, REPLAY_WINDOW_SECONDS)),
                       error := None, errorStatus := None)]
    else t
  }

  /** SQLite leaves the expiry column alone when it records a failure, PostgreSQL clears it. */
  function FailRow(backend: Backend, t: Table, key: Key, error: TurnError): Table {
    if Matches(backend, t, key) then
      t[key := t[key].(status := Failed, response := None,
                       expiresAt := if backend.Postgres? then None else t[key].expiresAt,
                       error := Some(error.envelope), errorStatus := Some(error.status))]
    else t
  }

  /** The moves a row may make: in progress to completed or failed, completed to expired, nothing else. */
  predicate Advances(before: Row, after: Row) {
    && after.hash == before.hash
    && (before == after
        || (before.status.InProgress? && !after.status.InProgress?)
        || (before.status.Completed? && after == before.(status := Expired, response := None)))
  }

  /** `reserve_turn` as a function of the table when nothing interleaves. */
  function Reserve(t: Table, key: Key, hash: Hash, now: int): (Table, StoredTurn) {
    if key !in t then (t[key := FreshRow(hash)], Reserved)
    else match ReadRow(t[key], hash, now)
      case Answer(stored) => (t, stored)
      case MustExpire => (MarkExpired(t, key), Lapsed)
  }

  class TurnStore {
    const backend: Backend
    var rows: Table

    constructor (backend: Backend)
      ensures this.backend == backend && rows == map[]
    {
      this.backend := backend;
      rows := map[];
    }

    method ReserveTurn(key: Key, hash: Hash, now: int) returns (stored: StoredTurn)
      modifies this
      ensures (rows, stored) == Reserve(old(rows), key, hash, now)
      ensures key in rows && (stored.Conflict? <==> rows[key].hash != hash)
      ensures stored.Reserved? <==> key !in old(rows)
    {
      var inserted := key !in rows;
      rows := InsertIfAbsent(rows, key, hash);
      if inserted {
        return Reserved;
      }
      var row := rows[key];
      match ReadRow(row, hash, now) {
        case Answer(answer) =>
          stored := answer;
        case MustExpire =>
          rows := MarkExpired(rows, key);
          stored := Lapsed;
      }
    }

    method CompleteTurn(key: Key, sealed: Sealed, now: int) returns (updated: bool)
      modifies this
      ensures rows == CompleteRow(backend, old(rows), key, sealed, now)
      ensures updated <==> Matches(backend, old(rows), key)
    {
      updated := key in rows && (backend.Sqlite? || rows[key].status.InProgress?);
      if updated {
        var expiresAt := SaturatingAdd(now, REPLAY_WINDOW_SECONDS);
        rows := rows[key := Row(rows[key].hash, Completed, Some(sealed), Some(expiresAt), None, None)];
      }
    }

    method FailTurn(key: Key, error: TurnError)
      modifies this
      ensures rows == FailRow(backend, old(rows), key, error)
    {
      if key in rows && (backend.Sqlite? || rows[key].status.InProgress?) {
        var expiresAt := if backend.Postgres? then None else rows[key].expiresAt;
        rows := rows[key := Row(rows[key].hash, Failed, None, expiresAt, Some(error.envelope), Some(error.status))];
      }
    }
  }
}
