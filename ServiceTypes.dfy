/** The service layer's uniform response, its error messages and the
    shapes of its inputs. */
module ServiceTypes {
  import opened Common
  import UserModel
  import SocialAccountModel

  /** What a failed response carries: one of the service's own messages,
      or the message of a lower-layer failure passed through unchanged. */
  datatype ServiceError = Reported(message: string) | Other(fault: Fault)

  /** `ServiceResponse<T>`: `success` is `Success?`; `data` is present
      exactly on success and `error` exactly on failure. */
  datatype ServiceResponse<T> = Success(data: T) | Failure(error: ServiceError)

  const USERNAME_OR_EMAIL_EXISTS: ServiceError := Reported("Username or email already exists")
  const INVALID_USER_DATA: ServiceError := Reported("Invalid user data provided")
  const INVALID_USER_ID: ServiceError := Reported("Invalid user ID format")
  const USER_NOT_FOUND: ServiceError := Reported("User not found")
  const INVALID_UPDATE_DATA: ServiceError := Reported("Invalid update data provided")
  const ACCOUNT_EXISTS: ServiceError := Reported("Social media account already exists")
  const INVALID_ACCOUNT_DATA: ServiceError := Reported("Invalid social media account data provided")
  const INVALID_ACCOUNT_ID: ServiceError := Reported("Invalid account ID format")
  const ACCOUNT_NOT_FOUND: ServiceError := Reported("Social media account not found")
  const INVALID_USER_ID_IN_FILTERS: ServiceError := Reported("Invalid user ID format in filters")

  /** A `catch` block: a `ValidationError` becomes the given message, any
      other failure passes its own message through. */
  function Caught(fault: Fault, onValidation: ServiceError): ServiceError {
    if fault == ValidationError then onValidation else Other(fault)
  }

  /** The inputs of the user operations: every field may be absent. */
  type CreateUserDto = UserModel.UserFields
  type UpdateUserDto = UserModel.UserFields

  datatype UserFilters = UserFilters(
    username: Option<string>,
    email: Option<string>,
    createdAfter: Option<Time>,
    createdBefore: Option<Time>)

  /** The inputs of the account operations. */
  type CreateSocialAccountDto = SocialAccountModel.AccountFields
  type UpdateSocialAccountDto = SocialAccountModel.AccountFields

  datatype SocialAccountFilters = SocialAccountFilters(
    platform: Option<string>,
    username: Option<string>,
    userId: Option<Id>,
    lastFetchedBefore: Option<Time>,
    lastFetchedAfter: Option<Time>)
}
