/** Small value wrappers shared by the analyzer and the task service. */
module Values {

  /** Python's `None` versus a value. */
  datatype Option<T> = None | Some(value: T)

  /** One key of a decoded JSON object: the key is missing, it holds `null`, or it holds a value.
      Python tells these apart (`"k" in d`, `d.get("k")`, `d["k"]`), so the model does too. */
  datatype Field<T> = Absent | Null | Present(value: T)
  {
    /** `d.get(k)`: a missing key and a null value both read as `None`. */
    function Get(): (r: Option<T>)
      ensures r.Some? <==> Present?
    {
      if Present? then Some(value) else None
    }
  }
}
