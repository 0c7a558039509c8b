/** `ApplicationTracker`: a list of job applications and the form that adds to it. */
module ApplicationTracker {

  /** The status select offers exactly these four values. */
  datatype Status = Applied | Interview | Offer | Rejected

  datatype Application = Application(company: string, position: string, status: Status, date: string)

  class Tracker {
    var applications: seq<Application>
    var company: string
    var position: string
    var status: Status

    /** No applications, empty inputs, status "applied". */
    constructor()
      ensures applications == [] && company == "" && position == "" && status == Applied
    {
      applications := [];
      company := "";
      position := "";
      status := Applied;
    }

    method SetCompany(value: string)
      modifies this
      ensures company == value && applications == old(applications)
      ensures position == old(position) && status == old(status)
    {
      company := value;
    }

    method SetPosition(value: string)
      modifies this
      ensures position == value && applications == old(applications)
      ensures company == old(company) && status == old(status)
    {
      position := value;
    }

    method SetStatus(value: Status)
      modifies this
      ensures status == value && applications == old(applications)
      ensures company == old(company) && position == old(position)
    {
      status := value;
    }

    /** `addApplication`: one entry with the inputs as they are (empty ones included) and the
        day's date, appended after the earlier entries; then the form is reset. The date
        is the `date` parameter. */
    method AddApplication(date: string)
      modifies this
      ensures applications == old(applications) + [Application(old(company), old(position), old(status), date)]
      ensures |applications| == |old(applications)| + 1
      ensures applications[..|old(applications)|] == old(applications)
      ensures company == "" && position == "" && status == Applied
    {
      applications := applications + [Application(company, position, status, date)];
      company := "";
      position := "";
      status := Applied;
    }
  }
}
