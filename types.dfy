/**
 * The records shared by the backend and the frontend (common/src/types/job.ts
 * and common/src/types/message.ts). Dates are integer milliseconds, as the
 * code compares them through getTime().
 */
module Types {
  import opened Wrappers

  datatype JobStatus = Pending | Processing | Completed | Failed

  datatype JobType = FileUpload | ChatMessage

  /**
   * A decoded JSON value. A job payload is whatever the client posted: the
   * FileUpload shape {fileName, fileType, fileSize, data} is an Obj with
   * those four fields, any other payload an arbitrary value. Numbers are
   * integers here (fractions are not modelled).
   */
  datatype Value =
    | Null
    | Bool(b: bool)
    | Num(n: int)
    | Str(s: string)
    | Arr(items: seq<Value>)
    | Obj(fields: map<string, Value>)

  datatype JobResult = JobResult(processedAt: int, message: string)

  datatype Job = Job(
    id: string,
    status: JobStatus,
    jobType: JobType,
    payload: Value,
    result: Option<JobResult>,
    createdAt: int,
    updatedAt: int)

  /** Text is the source's MessageType.Message (wire tag "message"), File is "file". */
  datatype MessageType = Text | File

  datatype FileData = FileData(fileName: string, fileType: string, fileSize: int, data: string)

  datatype Message = Message(
    id: string,
    userId: string,
    content: string,
    msgType: MessageType,
    fileData: Option<FileData>,
    timestamp: int)

  /** The invariant of the data model: fileData is present exactly for File messages. */
  predicate WellFormedMessage(m: Message) {
    m.fileData.Some? <==> m.msgType == File
  }

  /** No element occurs twice: map keys, job ids, client ids. */
  predicate Distinct<T(==)>(xs: seq<T>) {
    forall a, b :: 0 <= a < b < |xs| ==> xs[a] != xs[b]
  }

  /** `sub` occurs in `s` as a contiguous piece (String.prototype.includes). */
  predicate Contains(s: string, sub: string) {
    exists i :: 0 <= i <= |s| && sub <= s[i..]
  }
}
