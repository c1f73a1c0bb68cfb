/** The outgoing e-mail both pipelines hand to the mail backend. The backend
    itself is not modelled: a caller either records the message as sent or
    receives a delivery outcome from an abstract oracle. */
module Email {

  datatype Mail = Mail(sender: string, to: string, subject: string, body: string)
}
