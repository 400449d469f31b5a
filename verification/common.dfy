/** Failure-compatible wrappers and the error taxonomy shared by every stage
    of the intrusion-detection pipeline. Each error names the exception the
    Python program would raise at that point. */
module Common {

  datatype Option<+T> = None | Some(value: T)

  /** The exceptions the modelled code can raise (or, for `NameError`, would
      raise) on its way from raw input to a verdict. */
  datatype Error =
    | UnreadableCsv                  // pandas read_csv: the upload is not a parsable table
    | DuplicateColumnLabels          // pandas: "cannot reindex on an axis with duplicate labels"
    | MissingColumn(name: string)    // pandas KeyError on a column lookup
    | MissingRowLabel(id: int)       // pandas KeyError on `.loc`
    | FeatureNamesMismatch           // scikit-learn: columns differ from those seen at fit time
    | NonNumericFeature              // scikit-learn: a cell cannot be converted to a float
    | EmptyBatch                     // scikit-learn: at least one sample is required
    | NoFeatures                     // scikit-learn: at least one feature is required
    | UnseenLabelCode(code: int)     // LabelEncoder.inverse_transform on an unknown code
    | NonStringLabel                 // a `Label` cell that is not a category name
    | MissingAttribute(field: string)  // Scapy AttributeError: no layer has the field
    | MissingLayer(layer: string)      // Scapy IndexError: `packet[layer]` not found
    | UndefinedName(name: string)      // Python NameError

  datatype Result<+T> = Ok(value: T) | Err(error: Error) {

    predicate IsFailure() {
      Err?
    }

    function PropagateFailure<U>(): Result<U>
      requires Err?
    {
      Err(error)
    }

    function Extract(): T
      requires Ok?
    {
      value
    }
  }
}
