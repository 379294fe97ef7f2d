/** `createErrorHandler`: the failure callback every `run` installs. However
    often nested categories and commands re-evaluate `yargs.argv` and fail, the
    help screen and the message are shown once per yargs instance, and the
    callback never rethrows or exits. */
module Errors {
  import opened Context

  /** What reaches the callback, as far as modelled: an Error object or a bare
      message string (yargs passes the message of a failed check). A failing
      handler can throw any value; other values are not modelled. */
  datatype ErrorValue = ErrorObject(message: string) | Message(text: string)

  /** The line `console.log((err.message || err).red)` writes, colours dropped.
      An Error whose message is empty falls back to the object itself, which has
      no `red` property, so the line reads "undefined". */
  function Display(err: ErrorValue): (line: string)
    ensures err.ErrorObject? && err.message != "" ==> line == err.message
    ensures err.Message? ==> line == err.text
    ensures err == ErrorObject("") ==> line == "undefined"
    ensures line != "" || err == Message("")
  {
    match err
    case ErrorObject(m) => if m != "" then m else "undefined"
    case Message(t) => t
  }

  /** What one call of the callback does to the yargs instance: on the first
      failure, one help screen and one message and the flag set; afterwards,
      nothing. */
  twostate predicate HandledOnce(yargs: Parser, err: ErrorValue)
    reads yargs
  {
    && yargs.registry == old(yargs.registry)
    && yargs.hasShownHelpScreen
    && if old(yargs.hasShownHelpScreen) then
         yargs.helpScreens == old(yargs.helpScreens) && yargs.printed == old(yargs.printed)
       else
         yargs.helpScreens == old(yargs.helpScreens) + 1 && yargs.printed == old(yargs.printed) + [Display(err)]
  }

  /** The closure `createErrorHandler(yargs)` returns; the flag lives on the
      yargs instance, so every handler made for the same instance shares it. */
  class ErrorHandler {
    const yargs: Parser

    constructor (yargs: Parser)
      ensures this.yargs == yargs
    {
      this.yargs := yargs;
    }

    method Handle(err: ErrorValue)
      modifies yargs
      ensures HandledOnce(yargs, err) && yargs.usage == old(yargs.usage)
      ensures old(yargs.hasShownHelpScreen) ==> unchanged(yargs)
      ensures old(yargs.ReportedAtMostOnce()) ==> yargs.ReportedAtMostOnce()
    {
      if !yargs.hasShownHelpScreen {
        yargs.helpScreens := yargs.helpScreens + 1;
        yargs.printed := yargs.printed + [Display(err)];
        yargs.hasShownHelpScreen := true;
      }
    }
  }

  /** A category and the command below it both fail on one yargs instance, each
      through its own handler: the user sees one help screen and the first
      message only. */
  method NestedFailuresReportOnce(yargs: Parser, first: ErrorValue, second: ErrorValue)
    requires yargs.ReportedAtMostOnce() && !yargs.hasShownHelpScreen
    modifies yargs
    ensures yargs.ReportedAtMostOnce()
    ensures yargs.helpScreens == 1 && yargs.printed == [Display(first)]
  {
    var outer := new ErrorHandler(yargs);
    var inner := new ErrorHandler(yargs);
    outer.Handle(first);
    inner.Handle(second);
    outer.Handle(second);
  }
}
