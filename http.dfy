/** The error values the two web services answer with instead of raising `HTTPException`. */
module Http {
  datatype HttpError = HttpError(status: nat, detail: string)
}
