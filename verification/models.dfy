/** The records the API exchanges, and the HTTP responses of the listing action. */
module Models {
  import opened Wrappers

  /** A news item as deserialised from the per-item endpoint; either field may be null. */
  datatype Story = Story(title: Option<string>, url: Option<string>)

  /** The response envelope. */
  datatype StoryData = StoryData(stories: seq<Story>, errors: seq<string>, totalStories: int)

  /** `new StoryData()`: no stories, no errors, a total of 0. */
  const EmptyStoryData := StoryData([], [], 0)

  const NegativeArgumentsError := "Page index and page size cannot be negative numbers."
  const MissingPageError := "Requested page index doesn't exist."

  /** An exception that escapes the action instead of being turned into a result. */
  datatype Fault = DivideByZero

  /** What the action returns. */
  datatype Response =
    | Ok(data: StoryData)
    | BadRequest(data: StoryData)
      /** The caught `HttpRequestException` from a non-success upstream status. */
    | InternalServerError(upstreamStatus: int)
      /** An uncaught exception, which the host turns into a 500 response. */
    | Faulted(fault: Fault)

  function StatusCode(r: Response): (code: int)
    ensures code == 200 <==> r.Ok?
    ensures code == 400 <==> r.BadRequest?
    ensures code == 500 <==> r.InternalServerError? || r.Faulted?
  {
    match r
    case Ok(_) => 200
    case BadRequest(_) => 400
    case _ => 500
  }

  /** The response together with the cache it leaves behind. */
  datatype Outcome = Outcome(response: Response, cache: map<int, Story>)
}
