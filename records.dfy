/**
 * The record types shared by the repository and the HTTP layer of the
 * logins directory service: the stored login row, the timestamp and
 * identifier types, and the error taxonomy the repository reports.
 */
module Records {

  /** Largest value plus one of Go's 64-bit `uint`. */
  const UintLimit: int := 0x1_0000_0000_0000_0000

  /** Go's `uint` on a 64-bit platform. */
  type Uint = n: nat | n < UintLimit

  /** A UUID is a 128-bit value; only equality on it matters here. */
  type Uuid = bv128

  /** A UTC wall-clock instant, as produced by the injected clock. */
  type Time = int

  datatype Option<+T> = None | Some(value: T)

  /**
   * One row of the `logins` table.
   *
   * The repository record in the source names the ban flag `Ban` with
   * column tag "ban", while the result scans write to `Banned` and
   * BanByUuid sets the column "banned"; the model keeps a single flag,
   * `banned`, for all of them.
   */
  datatype Row = Row(
    id: nat,
    uuid: Uuid,
    login: string,
    banned: bool,
    createdAt: Option<Time>,
    updateAt: Option<Time>)

  /**
   * The errors a repository call can return:
   * `RecordNotFound` is the driver package's `RecordNotFoundError`,
   * `EndOfPage` is `io.EOF` returned for an empty page, and
   * `Store` is any error reported by the SQL driver.
   */
  datatype Error = RecordNotFound | EndOfPage | Store(reason: string)

  datatype Result<+T> = Ok(value: T) | Err(error: Error)
}
