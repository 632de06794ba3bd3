/**
 * The admin upload page as a stateful object: the access check, the form
 * fields, the picked files, and `handleUpload`'s sequential upload loop.
 * The services' answers are parameters; what the page asks of them is
 * recorded in `effects`.
 */
module UploadPage {
  import opened Wrappers
  import opened Numbers
  import opened Access
  import opened UploadRules

  datatype Screen = CheckingAccess | AccessDenied | UploadForm

  class Upload {
    var checkingAccess: bool
    var hasAccess: bool
    /** The four inputs and the picked files. */
    var form: Form
    var loading: bool
    var currentUploadingIndex: nat

    /** The calls made on the outside world so far, in order. */
    ghost var effects: seq<Effect>
    /** Every value `currentUploadingIndex` has been set to, in order. */
    ghost var progress: seq<nat>

    ghost predicate Valid()
      reads this`form, this`loading, this`currentUploadingIndex
    {
      && AllDigits(form.priority)
      && (!loading ==> currentUploadingIndex == 0)
      && currentUploadingIndex <= |form.files|
    }

    constructor ()
      ensures Valid()
      ensures checkingAccess && !hasAccess && !loading && currentUploadingIndex == 0
      ensures form == EmptyForm
      ensures effects == [] && progress == []
    {
      checkingAccess := true;
      hasAccess := false;
      form := EmptyForm;
      loading := false;
      currentUploadingIndex := 0;
      effects := [];
      progress := [];
    }

    /** `checkAccess` once the session and the role lookup have answered. */
    method CheckAccess(session: Session)
      requires Valid()
      modifies this`hasAccess, this`checkingAccess
      ensures Valid()
      ensures hasAccess == UploadAccess(session) && !checkingAccess
    {
      hasAccess := UploadAccess(session);
      checkingAccess := false;
    }

    /** Which of the three screens the page returns. */
    function Screen(): (s: Screen)
      reads this`checkingAccess, this`hasAccess
      ensures s == UploadForm <==> !checkingAccess && hasAccess
    {
      if checkingAccess then CheckingAccess else if !hasAccess then AccessDenied else UploadForm
    }

    /** The inputs are disabled while uploading. */
    method SetImageName(v: string)
      requires Valid() && !loading
      modifies this`form
      ensures Valid() && form == old(form).(imageName := v)
    {
      form := form.(imageName := v);
    }

    method SetImageType(v: string)
      requires Valid() && !loading
      modifies this`form
      ensures Valid() && form == old(form).(imageType := v)
    {
      form := form.(imageType := v);
    }

    method SetDescription(v: string)
      requires Valid() && !loading
      modifies this`form
      ensures Valid() && form == old(form).(description := v)
    {
      form := form.(description := v);
    }

    /** The priority input keeps only what survives the digit filter. */
    method SetPriority(typed: string)
      requires Valid() && !loading
      modifies this`form
      ensures Valid() && form == old(form).(priority := Sanitize(typed))
    {
      form := form.(priority := Sanitize(typed));
    }

    /** The file picker (it cannot be opened while uploading) replaces the selection. */
    method SelectFiles(files: seq<File>)
      requires Valid() && !loading
      modifies this`form
      ensures Valid() && form == old(form).(files := files)
    {
      form := form.(files := files);
    }

    /** `removeFile`: nothing while uploading, otherwise the file at `index` leaves the selection. */
    method RemoveFile(index: int)
      requires Valid()
      modifies this`form
      ensures Valid()
      ensures form == if old(loading) then old(form) else old(form).(files := RemoveAt(old(form.files), index))
    {
      if loading {
        return;
      }
      form := form.(files := RemoveAt(form.files, index));
    }

    /** The width of the progress bar. */
    function Percent(): nat
      reads this`currentUploadingIndex, this`form
    {
      ProgressPercent(currentUploadingIndex, |form.files|)
    }

    /**
     * The `for` loop of `handleUpload`: for each picked file in turn, the
     * counter moves to its position, the file is posted, and its
     * `image_urls` row is written; the first post that throws ends the
     * loop. Returns how many files got their row.
     */
    method UploadFiles(descId: nat, replies: seq<FileReply>) returns (k: nat)
      requires loading && currentUploadingIndex == 0 && |replies| == |form.files|
      modifies this`currentUploadingIndex, this`effects, this`progress
      ensures k == FirstThrow(replies)
      ensures effects == old(effects) + FileEffects(form.files[..k], descId, replies)
                         + if k < |form.files| then [PostImage(form.files[k])] else []
      ensures progress == old(progress) + Steps(if k < |form.files| then k + 1 else k)
      ensures currentUploadingIndex == if k < |form.files| then k + 1 else k
    {
      var files := form.files;
      k := 0;
      while k < |files|
        invariant 0 <= k <= |files|
        invariant forall j :: 0 <= j < k ==> replies[j].Replied?
        invariant currentUploadingIndex == k
        invariant effects == old(effects) + FileEffects(files[..k], descId, replies)
        invariant progress == old(progress) + Steps(k)
      {
        currentUploadingIndex := k + 1;
        progress := progress + [k + 1];
        effects := effects + [PostImage(files[k])];
        if replies[k].Threw? {
          assert Steps(k + 1) == Steps(k) + [k + 1];
          return;
        }
        effects := effects + [InsertImageRow(descId, replies[k].secureUrl)];
        assert files[..k + 1] == files[..k] + [files[k]];
        assert Steps(k + 1) == Steps(k) + [k + 1];
        k := k + 1;
      }
    }

    /**
     * The `try`/`catch`/`finally` of `handleUpload`, reached once both guards
     * have passed: store the description, upload the files, alert, and
     * reset `loading` and the counter whatever happened.
     */
    method RunUpload(descReply: Option<nat>, replies: seq<FileReply>)
      requires Valid() && !loading && |replies| == |form.files|
      requires Validate(form) == Proceed
      modifies this`form, this`loading, this`currentUploadingIndex, this`effects, this`progress
      ensures Valid() && !loading && currentUploadingIndex == 0
      ensures effects == old(effects) + RunEffects(old(form), descReply, replies)
      ensures progress == old(progress) + RunProgress(old(form), descReply, replies)
      ensures form == if RunSucceeded(old(form), descReply, replies) then EmptyForm else old(form)
    {
      ghost var f, effects0, progress0 := form, effects, progress;
      loading := true;
      currentUploadingIndex := 0;
      progress := progress + [0];

      var finalPriority := FinalPriority(form.priority);
      effects := effects + [InsertDescription(form.imageName, form.imageType, form.description, finalPriority)];

      if descReply == None {
        effects := effects + [Alert(UploadFailed)];
        RunWhenDescriptionFails(f, replies, effects0, progress0);
      } else {
        var descId := descReply.value;
        var k := UploadFiles(descId, replies);
        if k < |form.files| {
          effects := effects + [Alert(UploadFailed)];
          RunWhenFileThrows(f, descId, replies, k, effects0, progress0);
        } else {
          effects := effects + [Alert(UploadSucceeded)];
          RunWhenAllUploaded(f, descId, replies, effects0, progress0);
          form := EmptyForm;
        }
      }

      loading := false;
      currentUploadingIndex := 0;
      progress := progress + [0];
    }

    /**
     * `handleUpload`, given the answer of the `descriptions` insert (the new
     * row's id, or `None` for an error) and the image host's answer for each
     * picked file. The guards stop it with only an alert; otherwise the
     * files go up one at a time, the form is cleared on success, and
     * `loading` and the counter are reset in every case.
     */
    method HandleUpload(descReply: Option<nat>, replies: seq<FileReply>)
      requires Valid() && !loading && |replies| == |form.files|
      modifies this`form, this`loading, this`currentUploadingIndex, this`effects, this`progress
      ensures Valid() && !loading && currentUploadingIndex == 0
      ensures effects == old(effects) + RunEffects(old(form), descReply, replies)
      ensures progress == old(progress) + RunProgress(old(form), descReply, replies)
      ensures form == if RunSucceeded(old(form), descReply, replies) then EmptyForm else old(form)
    {
      ghost var f := form;
      if form.imageName == "" || form.imageType == "" || form.description == "" {
        effects := effects + [Alert(FillAllFields)];
        RejectedRunOnlyAlerts(f, descReply, replies);
        return;
      }
      if |form.files| == 0 {
        effects := effects + [Alert(SelectImages)];
        RejectedRunOnlyAlerts(f, descReply, replies);
        return;
      }
      RunUpload(descReply, replies);
    }
  }

  /** While the form is shown and idle, the progress bar stays within 0..100. */
  lemma PercentInRange(u: Upload)
    requires u.Valid()
    ensures u.Percent() <= 100
    ensures u.form.files == [] ==> u.Percent() == 0
  {
    ProgressPercentBounds(u.currentUploadingIndex, |u.form.files|);
  }
}
