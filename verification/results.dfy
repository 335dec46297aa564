/** The failure channel shared by the model: every Java `IllegalArgumentException`
    the core throws on a rejected argument becomes `Err(IllegalArgument)`. */
module Results {

  datatype Error = IllegalArgument

  datatype Result<+T> = Ok(value: T) | Err(error: Error)
}
