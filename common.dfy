/** Values shared by the editor and the drop zone: an optional value (JavaScript's
    `null`/`undefined` against a present value) and the browser's `File` record. */
module Common {

  datatype Option<+T> = None | Some(value: T)

  /** A file handed over by the browser (drop or file picker). Only its name is read
      by the code modelled here; its bytes stay outside the model. */
  datatype File = File(name: string)
}
