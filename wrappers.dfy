/** Option, Result and Outcome: the model's stand-ins for Java's null and exceptions. */
module Wrappers {

  datatype Option<+T> = None | Some(value: T)

  /** A computation that yields a value or raises an error. */
  datatype Result<+R, +E> = Success(value: R) | Failure(error: E)

  /** A computation with no value that completes or raises an error. */
  datatype Outcome<+E> = Pass | Fail(error: E)
}

/** The exceptions the core raises or lets through, one constructor per cause. */
module Errors {

  datatype Error =
      /** BasicMergedPdfOutput.getTemplateName: IllegalStateException. */
    | NoTemplateName
      /** The template engine could not resolve or evaluate the template at this path. */
    | TemplateFailure(path: string)
      /** The HTML parser rejected the rendered text. */
    | ParseFailure
      /** mergeHtml: the accumulated document has no body element. */
    | MissingBaseBody
      /** mergeHtml: the fragment rendered from this template has no body element. */
    | MissingFragmentBody(templateName: string)
      /** documentToString raised a TransformerException, rethrown as an IOException. */
    | TransformFailure
}
