/** Error values for the operations that the C++ program ends with exit(-1) or an exception. */
module Results {

  datatype Option<+T> = None | Some(value: T)

  /** The ways the label loader and the label lookup fail. */
  datatype Error =
    | LabelFileNotFound(filename: string)  // the label file could not be opened; the program exits with -1
    | OutOfRange                           // std::out_of_range thrown by std::string::substr or std::vector::at

  datatype Result<+T> = Ok(value: T) | Err(error: Error)
}
