/** The part of Spring's HttpOutputMessage the converters use. */
module Http {

  const ContentType: string := "Content-Type"
  const ContentDisposition: string := "Content-Disposition"

  /** What happened to a response, in order. */
  datatype Event = HeaderSet(name: string, value: string) | BodyOpened | Wrote(text: string)

  /**
   * A response under construction: its headers, the text written to its body
   * stream, and the order in which the converter touched them.
   */
  class OutputMessage {
    var headers: map<string, string>
    var body: string
    var trace: seq<Event>

    constructor ()
      ensures headers == map[] && body == [] && trace == []
    {
      headers, body, trace := map[], [], [];
    }

    /** HttpHeaders.set (and setContentType): replaces any earlier value. */
    method SetHeader(name: string, value: string)
      modifies this
      ensures headers == old(headers)[name := value]
      ensures body == old(body)
      ensures trace == old(trace) + [HeaderSet(name, value)]
    {
      headers := headers[name := value];
      trace := trace + [HeaderSet(name, value)];
    }

    /** getBody: hands out the body stream. */
    method OpenBody()
      modifies this
      ensures headers == old(headers) && body == old(body)
      ensures trace == old(trace) + [BodyOpened]
    {
      trace := trace + [BodyOpened];
    }

    /** A write of text to the body stream (the flush that follows changes nothing here). */
    method Write(text: string)
      modifies this
      ensures headers == old(headers)
      ensures body == old(body) + text
      ensures trace == old(trace) + [Wrote(text)]
    {
      body := body + text;
      trace := trace + [Wrote(text)];
    }
  }
}
