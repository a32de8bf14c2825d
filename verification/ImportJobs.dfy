/** The import job document. */
module ImportJobs {
  datatype JobStatus =
    Uploaded | StagedStatus | Mapped | Validated | CommittingStatus | Completed | CompletedWithErrors

  class ImportJob {
    const id: nat
    var status: JobStatus
    var validRows: nat
    var committedRows: nat
    var commitFailedRows: nat
    var skippedRows: nat

    constructor (id: nat, status: JobStatus, validRows: nat)
      ensures this.id == id && this.status == status && this.validRows == validRows
    {
      this.id, this.status, this.validRows := id, status, validRows;
      committedRows, commitFailedRows, skippedRows := 0, 0, 0;
    }
  }
}
