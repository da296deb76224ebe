/**
 * `FileHandler`: a one-file buffer.  `read` fills the buffer from the file in
 * binary or text mode, `write` replaces the file's contents (not the buffer),
 * `fileLength` measures the buffer, and `close` only ever raises.  The file
 * system is a map from paths to contents.
 */
module Files {
  import opened Wrappers

  /** A buffer's contents: bytes from a binary read, text from a text read. */
  datatype Data = Bytes(content: string) | Text(content: string)

  /** The Python exceptions the handler raises. */
  datatype FileError =
    | ValueError(message: string)
    | FileNotFound             // `open` of a path with no file
    | TypeError                // `write` of bytes to a text file or of text to a binary file
    | AttributeError           // `.close()` called on a `str`

  const BadTypeMessage := "Error: Program must specify file_type 't' or 'b'"
  const EmptyBufferMessage := "Use FileHandler.read() to read to internal buffer. Buffer is empty!"
  const CloseMessage := "Error: Internal Buffer must be empty & close must be in text. Binary autocloses after open."

  predicate IsBinaryType(fileType: string)
  {
    fileType == "b" || fileType == "binary"
  }

  predicate IsTextType(fileType: string)
  {
    fileType == "t" || fileType == "txt"
  }

  /** The file system: the contents of every existing file. */
  class Disk {
    var files: map<string, string>

    constructor(files: map<string, string>)
      ensures this.files == files
    {
      this.files := files;
    }
  }

  class FileHandler {
    var rawData: Option<Data>
    const path: string
    const fileType: string
    var binary: bool
    const disk: Disk

    /**
     * A filled buffer was read with this handler's type, which is a binary
     * or a text type: it holds bytes exactly when the mode flag is binary,
     * and the flag is binary exactly when the type is.
     */
    predicate Valid()
      reads this
    {
      rawData.Some? ==>
        (rawData.value.Bytes? <==> binary) && (binary <==> IsBinaryType(fileType))
        && (IsBinaryType(fileType) || IsTextType(fileType))
    }

    /** `FileHandler(file_path, file_type)`: an empty buffer, in binary mode. */
    constructor(disk: Disk, path: string, fileType: string := "b")
      ensures this.disk == disk && this.path == path && this.fileType == fileType
      ensures rawData == None && binary && Valid()
    {
      this.disk := disk;
      this.path := path;
      this.fileType := fileType;
      rawData := None;
      binary := true;
    }

    /** `fileLength`: the buffer's length, 0 when it is empty. */
    function FileLength(): (n: nat)
      reads this
      ensures rawData.None? ==> n == 0
      ensures rawData.Some? ==> n == |rawData.value.content|
    {
      if rawData.None? then 0 else |rawData.value.content|
    }

    /**
     * `read`: a binary type loads the file's bytes and sets binary mode, a
     * text type loads its text and clears it; any other type raises
     * ValueError and a missing file raises, both leaving the handler as it was.
     */
    method Read() returns (err: Option<FileError>)
      requires Valid()
      modifies this
      ensures Valid()
      ensures !IsBinaryType(fileType) && !IsTextType(fileType) ==>
                err == Some(ValueError(BadTypeMessage)) && rawData == old(rawData) && binary == old(binary)
      ensures (IsBinaryType(fileType) || IsTextType(fileType)) && path !in disk.files ==>
                err == Some(FileNotFound) && rawData == old(rawData) && binary == old(binary)
      ensures IsBinaryType(fileType) && path in disk.files ==>
                err == None && rawData == Some(Bytes(disk.files[path])) && binary
      ensures IsTextType(fileType) && path in disk.files ==>
                err == None && rawData == Some(Text(disk.files[path])) && !binary
      ensures err == None ==> FileLength() == |disk.files[path]|
    {
      if IsBinaryType(fileType) {
        if path !in disk.files {
          return Some(FileNotFound);
        }
        rawData := Some(Bytes(disk.files[path]));
        binary := true;
      } else if IsTextType(fileType) {
        if path !in disk.files {
          return Some(FileNotFound);
        }
        rawData := Some(Text(disk.files[path]));
        binary := false;
      } else {
        return Some(ValueError(BadTypeMessage));
      }
      return None;
    }

    /**
     * `write`: raises ValueError while the buffer is empty; otherwise opens
     * the file for writing in the buffer's mode, which empties it, and
     * writes the payload, which fails with TypeError (leaving the file empty)
     * when the payload's kind does not match the mode.  The buffer is not
     * touched.
     */
    method Write(payload: Data) returns (err: Option<FileError>)
      requires Valid()
      modifies disk
      ensures Valid()
      ensures rawData.None? ==> err == Some(ValueError(EmptyBufferMessage)) && disk.files == old(disk.files)
      ensures rawData.Some? && (payload.Bytes? <==> binary) ==>
                err == None && disk.files == old(disk.files)[path := payload.content]
      ensures rawData.Some? && !(payload.Bytes? <==> binary) ==>
                err == Some(TypeError) && disk.files == old(disk.files)[path := ""]
    {
      if rawData.None? {
        return Some(ValueError(EmptyBufferMessage));
      }
      disk.files := disk.files[path := ""];
      if payload.Bytes? != binary {
        return Some(TypeError);
      }
      disk.files := disk.files[path := payload.content];
      return None;
    }

    /**
     * The error `close` raises: ValueError in binary mode or with an empty
     * buffer; otherwise the text buffer is a `str`, which has no `close`.
     */
    function CloseError(): (e: FileError)
      reads this
      requires Valid()
      ensures e.ValueError? <==> binary || rawData.None?
      ensures e.AttributeError? <==> rawData.Some? && rawData.value.Text?
    {
      if !binary && rawData.Some? then AttributeError else ValueError(CloseMessage)
    }

    /** `close`: always raises, and changes nothing. */
    method Close() returns (err: FileError)
      requires Valid()
      ensures err == CloseError()
    {
      err := CloseError();
    }

    /** `reset`: its `close` raises before the file is read again, so nothing changes. */
    method Reset() returns (err: FileError)
      requires Valid()
      ensures err == CloseError()
    {
      err := Close();
    }
  }

  /**
   * The round trip the unit test performs: after `read` and then `write(x)`
   * in the matching mode, reading again gives back exactly `x`, and the
   * length is that of `x`.
   */
  method WriteThenRead(h: FileHandler, x: Data) returns (err: Option<FileError>)
    requires h.Valid() && h.rawData.Some? && (x.Bytes? <==> h.binary)
    modifies h, h.disk
    ensures err == None && h.rawData == Some(x) && h.FileLength() == |x.content|
  {
    err := h.Write(x);
    err := h.Read();
  }
}
