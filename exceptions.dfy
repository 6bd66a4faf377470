/** What the core throws: NestJS `BadRequestException`s with their messages, and JavaScript `TypeError`s. */
module Exceptions {

  datatype Error =
    /** `new BadRequestException(message)`. */
    | BadRequest(message: string)
    /** A `TypeError` raised by the engine; `site` names the operation that raised it. */
    | TypeError(site: string)
}
