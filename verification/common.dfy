/** Types shared by the gateway model: bytes, the error codes the operating
    system reports, and the Option and Result wrappers for absent values and
    failed calls. */
module Common {

  newtype byte = x: int | 0 <= x < 256

  type Bytes = seq<byte>

  /** The error codes of the file system calls the gateway makes. */
  datatype Errno = ENOENT | ENOTDIR | EISDIR | EEXIST | ENOTEMPTY | EINVAL | EIO | ENOSPC | EACCES

  datatype Option<T> = None | Some(value: T)

  /** The (error, value) pair a Node callback receives. */
  datatype Result<T> = Ok(value: T) | Err(error: Errno)
}
