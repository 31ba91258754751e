/**
 * MainViewModel as an object: the fields it updates in place (the current movie,
 * the picked image, the draft credentials) and the operations that read or write
 * them, with every remote store, the clock and the network taken as inputs.
 */
module ViewModel {
  import opened Option
  import opened KotlinText
  import opened Records
  import opened MovieData

  /** The result of the image picker: an intent that may or may not carry an image URI. */
  datatype PickedImage = PickedImage(uri: Option<string>)

  /** A merge-write of an annotation document: the collection, the document id and the document. */
  datatype AnnotationWrite = AnnotationWrite(collection: string, documentId: string, document: AnnotatedImage)

  /**
   * What handleImageUploadResult sends out: the annotation write, the storage path
   * the image is put under, and whether it stopped on a picked intent without a URI
   * (`data.data!!`).
   */
  datatype UploadWrites = UploadWrites(
    annotationWrite: Option<AnnotationWrite>,
    imagePath: Option<string>,
    crashed: bool)

  /** The three credential checks whose bodies are not part of this model. */
  datatype CredentialChecks = CredentialChecks(
    isValidEmail: string -> bool,
    isValidPassword: string -> bool,
    passwordMatches: (string, string) -> bool)

  /** The toast messages of the credential checks. */
  datatype CredentialError = EmailError | EmptyPasswordError | PasswordError | PasswordMatchError

  /** What a credential button does: show an error toast, or launch one account call. */
  datatype ClickOutcome =
    | ShowError(error: CredentialError)
    | Authenticate(email: string, password: string)
    | LinkAccount(email: string, password: string)
    | SendRecoveryEmail(email: string)

  class MainViewModel {
    var currentMovieId: Option<int>
    var pickImageData: Option<PickedImage>
    var email: string
    var password: string
    var repeatPassword: string

    constructor()
      ensures currentMovieId == None && pickImageData == None
      ensures email == "" && password == "" && repeatPassword == ""
    {
      currentMovieId, pickImageData := None, None;
      email, password, repeatPassword := "", "", "";
    }

    /**
     * getPriceChange with the response taken as its lines, reading failing at line
     * `failsAt` if it does: each line read is trimmed and appended, and the text is
     * sanitised.
     */
    method GetPriceChange(lines: seq<string>, failsAt: Option<nat>) returns (price: string)
      ensures price == PriceText(lines, failsAt)
    {
      var read := if failsAt.Some? && failsAt.value < |lines| then failsAt.value else |lines|;
      var response := "";
      var i := 0;
      while i < read
        invariant 0 <= i <= read
        invariant response == JoinTrimmed(lines[..i])
      {
        assert lines[..i + 1][..i] == lines[..i];
        response := response + Trim(lines[i]);
        i := i + 1;
      }
      price := StripPriceChars(response);
    }

    /**
     * getImagesAndAnnotations: nothing for a null id; otherwise the images listed in
     * the folder of `movieId`, the annotations of the current movie's collection,
     * and their merge.
     */
    method GetImagesAndAnnotations(movieId: Option<int>, backend: Backend)
      returns (merged: seq<(string, string)>)
      ensures movieId.None? ==> merged == []
      ensures movieId.Some? ==> merged == MergeImagesAndAnnotations(
        ListOrEmpty(backend.imageFolders, MovieFolder(movieId.value)),
        ListOrEmpty(backend.annotationCollections, AnnotationsPath(currentMovieId)))
    {
      if movieId.None? {
        return [];
      }
      var images := ListOrEmpty(backend.imageFolders, MovieFolder(movieId.value));
      var documents := ListOrEmpty(backend.annotationCollections, AnnotationsPath(currentMovieId));
      var annotations: seq<AnnotatedImage> := [];
      for i := 0 to |documents|
        invariant annotations == documents[..i]
      {
        annotations := annotations + [documents[i]];
      }
      assert documents[..|documents|] == documents;
      merged := MergeImagesAndAnnotations(images, annotations);
    }

    method SetPickImageData(data: Option<PickedImage>)
      modifies this`pickImageData
      ensures pickImageData == data
    {
      pickImageData := data;
    }

    method GetPickImageData() returns (data: Option<PickedImage>)
      ensures data == pickImageData
    {
      data := pickImageData;
    }

    /**
     * handleImageUploadResult at time `time`: the annotation, if any, is written as
     * document `time` of the current movie's annotations; a picked image is put at
     * `movies/<currentMovieId>/<time>.jpg`; the picked image is then cleared.  A
     * picked intent without a URI stops the call after the annotation write.
     */
    method HandleImageUploadResult(annotation: Option<string>, time: int) returns (writes: UploadWrites)
      modifies this`pickImageData
      ensures writes.annotationWrite == if annotation.Some?
        then Some(AnnotationWrite(AnnotationsPath(currentMovieId), IntToString(time),
                                  UploadedAnnotation(time, annotation.value)))
        else None
      ensures writes.crashed <==> old(pickImageData).Some? && old(pickImageData).value.uri.None?
      ensures writes.imagePath == if old(pickImageData).Some? && !writes.crashed
        then Some(UploadedImagePath(currentMovieId, time)) else None
      ensures pickImageData == if writes.crashed then old(pickImageData) else None
      ensures writes.imagePath.Some? && writes.annotationWrite.Some? ==>
        TruncateImageName(writes.imagePath.value) == writes.annotationWrite.value.document.name
    {
      var data := GetPickImageData();
      var annotationWrite := None;
      if annotation.Some? {
        annotationWrite := Some(AnnotationWrite(AnnotationsPath(currentMovieId), IntToString(time),
                                                UploadedAnnotation(time, annotation.value)));
      }
      var imagePath := None;
      if data.Some? {
        if data.value.uri.None? {
          return UploadWrites(annotationWrite, None, true);
        }
        imagePath := Some(UploadedImagePath(currentMovieId, time));
        UploadedImageNameIsTimestamp("movies/" + NullableToString(currentMovieId), time);
      }
      SetPickImageData(None);
      writes := UploadWrites(annotationWrite, imagePath, false);
    }

    /**
     * getMoneyRecords: nothing for a null id; otherwise the records of the movie's
     * collection, stably sorted by year.
     */
    method GetMoneyRecords(movieId: Option<int>, backend: Backend) returns (records: seq<MoneyRecord>)
      ensures movieId.None? ==> records == []
      ensures movieId.Some? ==>
        var fetched := ListOrEmpty(backend.moneyRecordCollections, MoneyRecordsPath(movieId.value));
        && records == SortByYear(fetched)
        && multiset(records) == multiset(fetched)
        && SortedByYear(records)
        && forall y :: WithYear(records, y) == WithYear(fetched, y)
    {
      if movieId.None? {
        return [];
      }
      var documents := ListOrEmpty(backend.moneyRecordCollections, MoneyRecordsPath(movieId.value));
      var result: seq<MoneyRecord> := [];
      for i := 0 to |documents|
        invariant result == documents[..i]
      {
        result := result + [documents[i]];
      }
      assert documents[..|documents|] == documents;
      records := SortByYear(result);
      SortByYearPermutes(result);
      SortByYearSorted(result);
      SortByYearStableForAllYears(result);
    }

    /**
     * getMovie: a null id fetches nothing and leaves the current movie as it was;
     * any other id becomes the current movie and is fetched.
     */
    method GetMovie<M>(id: Option<int>, fetch: int -> M) returns (movie: Option<M>)
      modifies this`currentMovieId
      ensures id.None? ==> movie == None && currentMovieId == old(currentMovieId)
      ensures id.Some? ==> movie == Some(fetch(id.value)) && currentMovieId == id
    {
      if id.None? {
        return None;
      }
      currentMovieId := id;
      movie := Some(fetch(id.value));
    }

    method GetEmail() returns (r: string)
      ensures r == email
    {
      r := email;
    }

    method SetEmail(newEmail: string)
      modifies this`email
      ensures email == newEmail
    {
      email := newEmail;
    }

    method GetPassword() returns (r: string)
      ensures r == password
    {
      r := password;
    }

    method SetPassword(newPassword: string)
      modifies this`password
      ensures password == newPassword
    {
      password := newPassword;
    }

    method GetRepeatPassword() returns (r: string)
      ensures r == repeatPassword
    {
      r := repeatPassword;
    }

    method SetRepeatPassword(newPassword: string)
      modifies this`repeatPassword
      ensures repeatPassword == newPassword
    {
      repeatPassword := newPassword;
    }

    /**
     * onSignInClick: the email is checked first, then that the password is not
     * blank; the first failure shows its error and nothing is launched, and only
     * when both pass is the user authenticated with the drafted credentials.
     */
    method OnSignInClick(checks: CredentialChecks) returns (outcome: ClickOutcome)
      ensures !checks.isValidEmail(email) ==> outcome == ShowError(EmailError)
      ensures checks.isValidEmail(email) && IsBlank(password) ==> outcome == ShowError(EmptyPasswordError)
      ensures outcome.Authenticate? <==> checks.isValidEmail(email) && !IsBlank(password)
      ensures outcome.Authenticate? ==> outcome == Authenticate(email, password)
      ensures outcome.ShowError? || outcome.Authenticate?
    {
      if !checks.isValidEmail(email) {
        return ShowError(EmailError);
      }
      if IsBlank(password) {
        return ShowError(EmptyPasswordError);
      }
      outcome := Authenticate(email, password);
    }

    /** onForgotPasswordClick: a recovery email only to an address that passes the check. */
    method OnForgotPasswordClick(checks: CredentialChecks) returns (outcome: ClickOutcome)
      ensures outcome == if checks.isValidEmail(email) then SendRecoveryEmail(email) else ShowError(EmailError)
    {
      if !checks.isValidEmail(email) {
        return ShowError(EmailError);
      }
      outcome := SendRecoveryEmail(email);
    }

    /**
     * onSignUpClick: the email, then the password, then that the repeat matches;
     * the first failure shows its error and nothing is launched, and the account
     * is linked only when all three pass.
     */
    method OnSignUpClick(checks: CredentialChecks) returns (outcome: ClickOutcome)
      ensures !checks.isValidEmail(email) ==> outcome == ShowError(EmailError)
      ensures checks.isValidEmail(email) && !checks.isValidPassword(password) ==>
        outcome == ShowError(PasswordError)
      ensures (checks.isValidEmail(email) && checks.isValidPassword(password) &&
               !checks.passwordMatches(password, repeatPassword)) ==> outcome == ShowError(PasswordMatchError)
      ensures outcome.LinkAccount? <==>
        checks.isValidEmail(email) && checks.isValidPassword(password) && checks.passwordMatches(password, repeatPassword)
      ensures outcome.LinkAccount? ==> outcome == LinkAccount(email, password)
      ensures outcome.ShowError? || outcome.LinkAccount?
    {
      if !checks.isValidEmail(email) {
        return ShowError(EmailError);
      }
      if !checks.isValidPassword(password) {
        return ShowError(PasswordError);
      }
      if !checks.passwordMatches(password, repeatPassword) {
        return ShowError(PasswordMatchError);
      }
      outcome := LinkAccount(email, password);
    }
  }
}
